// The filter bookkeeping of drivers/net/ethernet/intel/iavf/iavf_virtchnl.c:
// the one-outstanding-request rule, MAC and VLAN add/delete batching under
// the admin-queue buffer limit, the PF's answers to those requests, the
// promiscuous-mode message, Flow Director filter reactivation and results,
// the queue-count clamp and the API version check. The message sent to the
// PF is returned instead of being transmitted.

module IavfVirtchnl {
  import opened Ints
  import opened Errno
  import opened Wrappers
  import opened IavfH

  // From include/linux/avf/virtchnl.h, which is not part of this model.
  const VIRTCHNL_VERSION_MAJOR: nat := 1
  const VIRTCHNL_VERSION_MINOR: nat := 1
  const FLAG_VF_UNICAST_PROMISC: nat := 0x1
  const FLAG_VF_MULTICAST_PROMISC: nat := 0x2


  // ---------------------------------------------------------------------
  // List walks
  // ---------------------------------------------------------------------

  /** The number of entries `sel` picks out. */
  function Count<T>(l: seq<T>, sel: T -> bool): (n: nat)
    ensures n <= |l|
    decreases |l|
  {
    if |l| == 0 then 0 else (if sel(l[0]) then 1 else 0) + Count(l[1..], sel)
  }

  /**
   * The list after a walk that handles every entry: `step` gives the entry
   * as edited, or nothing when the entry is unlinked and freed.
   */
  function Walk<T>(l: seq<T>, step: T -> seq<T>): seq<T>
    decreases |l|
  {
    if |l| == 0 then [] else step(l[0]) + Walk(l[1..], step)
  }

  /**
   * The list after a walk that handles the first k selected entries and
   * then breaks out, leaving the rest untouched.
   */
  function WalkFirst<T>(l: seq<T>, k: nat, sel: T -> bool, step: T -> seq<T>): seq<T>
    decreases |l|
  {
    if |l| == 0 || k == 0 then l
    else if sel(l[0]) then step(l[0]) + WalkFirst(l[1..], k - 1, sel, step)
    else [l[0]] + WalkFirst(l[1..], k, sel, step)
  }

  /** The first k selected entries, in list order: what goes into the message. */
  function TakeFirst<T>(l: seq<T>, k: nat, sel: T -> bool): seq<T>
    decreases |l|
  {
    if |l| == 0 || k == 0 then []
    else if sel(l[0]) then [l[0]] + TakeFirst(l[1..], k - 1, sel)
    else TakeFirst(l[1..], k, sel)
  }

  /** The message carries min(k, selected) entries, all of them selected ones. */
  lemma {:induction false} TakeFirstSpec<T>(l: seq<T>, k: nat, sel: T -> bool)
    ensures |TakeFirst(l, k, sel)| == Min(k, Count(l, sel))
    ensures forall x :: x in TakeFirst(l, k, sel) ==> x in l && sel(x)
    decreases |l|
  {
    if |l| > 0 && k > 0 {
      if sel(l[0]) {
        TakeFirstSpec(l[1..], k - 1, sel);
      } else {
        TakeFirstSpec(l[1..], k, sel);
      }
    }
  }

  /**
   * When handling an entry takes it out of the selection, the walk leaves
   * exactly Count - min(k, Count) selected entries.
   */
  lemma {:induction false} WalkFirstCount<T>(l: seq<T>, k: nat, sel: T -> bool, step: T -> seq<T>)
    requires forall x :: sel(x) ==> Count(step(x), sel) == 0
    ensures Count(WalkFirst(l, k, sel, step), sel) == Count(l, sel) - Min(k, Count(l, sel))
    decreases |l|
  {
    if |l| > 0 && k > 0 {
      if sel(l[0]) {
        WalkFirstCount(l[1..], k - 1, sel, step);
        CountAppend(step(l[0]), WalkFirst(l[1..], k - 1, sel, step), sel);
      } else {
        WalkFirstCount(l[1..], k, sel, step);
        CountAppend([l[0]], WalkFirst(l[1..], k, sel, step), sel);
      }
    }
  }

  /** A walk that unlinks what it handles splits the list into what stays and what was sent. */
  lemma {:induction false} WalkFirstUnlinks<T>(l: seq<T>, k: nat, sel: T -> bool, step: T -> seq<T>)
    requires forall x :: sel(x) ==> step(x) == []
    ensures multiset(WalkFirst(l, k, sel, step)) + multiset(TakeFirst(l, k, sel)) == multiset(l)
    decreases |l|
  {
    if |l| > 0 && k > 0 {
      var x, rest := l[0], l[1..];
      assert l == [x] + rest;
      var k' := if sel(x) then k - 1 else k;
      WalkFirstUnlinks(rest, k', sel, step);
      var w, t := WalkFirst(rest, k', sel, step), TakeFirst(rest, k', sel);
      if sel(x) {
        assert WalkFirst(l, k, sel, step) == [] + w == w;
        assert TakeFirst(l, k, sel) == [x] + t;
        assert multiset(w) + multiset([x] + t) == multiset([x]) + multiset(rest);
      } else {
        assert WalkFirst(l, k, sel, step) == [x] + w;
        assert TakeFirst(l, k, sel) == t;
        assert multiset([x] + w) + multiset(t) == multiset([x]) + multiset(rest);
      }
    }
  }

  lemma {:induction false} CountAppend<T>(a: seq<T>, b: seq<T>, sel: T -> bool)
    ensures Count(a + b, sel) == Count(a, sel) + Count(b, sel)
    decreases |a|
  {
    if |a| == 0 {
      assert a + b == b;
    } else {
      assert (a + b)[0] == a[0];
      assert (a + b)[1..] == a[1..] + b;
      CountAppend(a[1..], b, sel);
    }
  }

  /** Every entry a walk leaves satisfies P when every step produces only entries satisfying P. */
  lemma {:induction false} WalkAll<T>(l: seq<T>, step: T -> seq<T>, P: T -> bool)
    requires forall x, y :: y in step(x) ==> P(y)
    ensures forall y :: y in Walk(l, step) ==> P(y)
    decreases |l|
  {
    if |l| > 0 {
      WalkAll(l[1..], step, P);
    }
  }

  /** list_for_each_entry counting the selected entries. */
  method CountEntries<T>(l: seq<T>, sel: T -> bool) returns (n: nat)
    ensures n == Count(l, sel)
  {
    n := 0;
    var j := 0;
    while j < |l|
      invariant 0 <= j <= |l|
      invariant n + Count(l[j..], sel) == Count(l, sel)
    {
      assert l[j..][1..] == l[j + 1..];
      if sel(l[j]) {
        n := n + 1;
      }
      j := j + 1;
    }
  }

  /** list_for_each_entry(_safe) handling every entry. */
  method WalkEntries<T>(l: seq<T>, step: T -> seq<T>) returns (out: seq<T>)
    ensures out == Walk(l, step)
  {
    out := [];
    var j := 0;
    while j < |l|
      invariant 0 <= j <= |l|
      invariant Walk(l, step) == out + Walk(l[j..], step)
    {
      assert l[j..][1..] == l[j + 1..];
      out := out + step(l[j]);
      j := j + 1;
    }
  }

  /**
   * The batching walk of the request builders: the first k selected entries
   * go into the message and are handled by `step`; after the k-th the walk
   * breaks out.
   */
  method WalkFirstEntries<T>(l: seq<T>, k: nat, sel: T -> bool, step: T -> seq<T>)
    returns (out: seq<T>, sent: seq<T>)
    ensures out == WalkFirst(l, k, sel, step)
    ensures sent == TakeFirst(l, k, sel)
  {
    out := [];
    sent := [];
    var i := 0;
    var j := 0;
    if k == 0 {
      return l, [];
    }
    while j < |l|
      invariant 0 <= j <= |l|
      invariant 0 <= i < k
      invariant WalkFirst(l, k, sel, step) == out + WalkFirst(l[j..], k - i, sel, step)
      invariant TakeFirst(l, k, sel) == sent + TakeFirst(l[j..], k - i, sel)
    {
      assert l[j..][1..] == l[j + 1..];
      if sel(l[j]) {
        sent := sent + [l[j]];
        out := out + step(l[j]);
        i := i + 1;
        if i == k {
          out := out + l[j + 1..];
          return;
        }
      } else {
        out := out + [l[j]];
      }
      j := j + 1;
    }
  }

  // ---------------------------------------------------------------------
  // Message size limit
  // ---------------------------------------------------------------------

  /**
   * virtchnl_struct_size for a list message: a fixed part and `elem` bytes
   * per entry. The structure sizes come from virtchnl.h, which is not part of
   * this model; a message with one entry fits the admin-queue buffer.
   */
  datatype MsgLayout = MsgLayout(fixed: nat, elem: nat)

  predicate ValidLayout(m: MsgLayout)
  {
    m.elem >= 1 && m.fixed + m.elem <= IAVF_MAX_AQ_BUF_SIZE
  }

  function MsgLen(m: MsgLayout, count: nat): nat
  {
    m.fixed + count * m.elem
  }

  /** The count after `while (len > IAVF_MAX_AQ_BUF_SIZE) len = size(--count)`. */
  function FitCount(m: MsgLayout, count: nat): nat
    decreases count
  {
    if count <= 1 || MsgLen(m, count) <= IAVF_MAX_AQ_BUF_SIZE then count else FitCount(m, count - 1)
  }

  /** The shrunk count is the largest one up to `count` whose message fits. */
  lemma {:induction false} FitCountSpec(m: MsgLayout, count: nat)
    requires ValidLayout(m) && count >= 1
    ensures 1 <= FitCount(m, count) <= count
    ensures MsgLen(m, FitCount(m, count)) <= IAVF_MAX_AQ_BUF_SIZE
    ensures FitCount(m, count) < count ==> MsgLen(m, FitCount(m, count) + 1) > IAVF_MAX_AQ_BUF_SIZE
    ensures MsgLen(m, count) <= IAVF_MAX_AQ_BUF_SIZE <==> FitCount(m, count) == count
    decreases count
  {
    if count > 1 && MsgLen(m, count) > IAVF_MAX_AQ_BUF_SIZE {
      FitCountSpec(m, count - 1);
    }
  }

  /** The shrinking loop of the request builders; `more` records that it ran. */
  method ShrinkToFit(m: MsgLayout, count: nat) returns (c: nat, len: nat, more: bool)
    requires ValidLayout(m) && count >= 1
    ensures c == FitCount(m, count) && len == MsgLen(m, c)
    ensures more <==> MsgLen(m, count) > IAVF_MAX_AQ_BUF_SIZE
  {
    c := count;
    len := MsgLen(m, c);
    more := false;
    if len > IAVF_MAX_AQ_BUF_SIZE {
      while len > IAVF_MAX_AQ_BUF_SIZE
        invariant 1 <= c <= count
        invariant len == MsgLen(m, c)
        invariant FitCount(m, c) == FitCount(m, count)
        decreases c
      {
        c := c - 1;
        len := MsgLen(m, c);
      }
      more := true;
    }
  }

  // ---------------------------------------------------------------------
  // MAC filters
  // ---------------------------------------------------------------------

  predicate IsAddMarked(f: MacFilter) { f.add }
  predicate IsRemoveMarked(f: MacFilter) { f.remove }
  function ClearAdd(f: MacFilter): seq<MacFilter> { [f.(add := false)] }
  function Unlink(f: MacFilter): seq<MacFilter> { [] }

  /**
   * iavf_add_ether_addrs: with no request outstanding, sends the first
   * `count` add-marked filters (count shrunk until the message fits) and
   * clears their add bit. IAVF_FLAG_AQ_ADD_MAC_FILTER is cleared when no
   * filter was marked, or when they all fitted.
   */
  method AddEtherAddrs(a: Adapter, m: MsgLayout) returns (sent: seq<MacFilter>, len: nat)
    requires ValidLayout(m)
    modifies a`currentOp, a`aqRequired, a`macFilters
    ensures old(a.currentOp) != OpUnknown ==>
              unchanged(a) && sent == []
    ensures old(a.currentOp) == OpUnknown && Count(old(a.macFilters), IsAddMarked) == 0 ==>
              a.currentOp == OpUnknown && a.macFilters == old(a.macFilters) &&
              a.aqRequired == old(a.aqRequired) - {AqAddMacFilter} && sent == []
    ensures old(a.currentOp) == OpUnknown && Count(old(a.macFilters), IsAddMarked) > 0 ==>
              var n := Count(old(a.macFilters), IsAddMarked);
              var c := FitCount(m, n);
              a.currentOp == OpAddEthAddr &&
              a.macFilters == WalkFirst(old(a.macFilters), c, IsAddMarked, ClearAdd) &&
              sent == TakeFirst(old(a.macFilters), c, IsAddMarked) &&
              len == MsgLen(m, c) &&
              a.aqRequired == (if c == n then old(a.aqRequired) - {AqAddMacFilter} else old(a.aqRequired))
  {
    sent := [];
    len := 0;
    if a.currentOp != OpUnknown {
      return;
    }
    var count := CountEntries(a.macFilters, IsAddMarked);
    ghost var n := count;
    if count == 0 {
      a.aqRequired := a.aqRequired - {AqAddMacFilter};
      return;
    }
    a.currentOp := OpAddEthAddr;
    var more;
    count, len, more := ShrinkToFit(m, count);
    var out;
    out, sent := WalkFirstEntries(a.macFilters, count, IsAddMarked, ClearAdd);
    a.macFilters := out;
    if !more {
      a.aqRequired := a.aqRequired - {AqAddMacFilter};
    }
    FitCountSpec(m, n);
  }

  /**
   * After iavf_add_ether_addrs the message holds at most one buffer's worth
   * of filters, none of them is still add-marked afterwards, and the flag is
   * gone only if no add-marked filter is left.
   */
  lemma AddEtherAddrsOutcome(l: seq<MacFilter>, m: MsgLayout)
    requires ValidLayout(m) && Count(l, IsAddMarked) > 0
    ensures var c := FitCount(m, Count(l, IsAddMarked));
            |TakeFirst(l, c, IsAddMarked)| == c &&
            MsgLen(m, c) <= IAVF_MAX_AQ_BUF_SIZE &&
            Count(WalkFirst(l, c, IsAddMarked, ClearAdd), IsAddMarked) == Count(l, IsAddMarked) - c &&
            (c == Count(l, IsAddMarked) ==> Count(WalkFirst(l, c, IsAddMarked, ClearAdd), IsAddMarked) == 0)
  {
    var n := Count(l, IsAddMarked);
    var c := FitCount(m, n);
    FitCountSpec(m, n);
    TakeFirstSpec(l, c, IsAddMarked);
    forall x | IsAddMarked(x)
      ensures Count(ClearAdd(x), IsAddMarked) == 0
    {
      assert ClearAdd(x)[1..] == [];
    }
    WalkFirstCount(l, c, IsAddMarked, ClearAdd);
  }

  /**
   * iavf_del_ether_addrs: sends the first `count` remove-marked filters and
   * unlinks exactly those.
   */
  method DelEtherAddrs(a: Adapter, m: MsgLayout) returns (sent: seq<MacFilter>, len: nat)
    requires ValidLayout(m)
    modifies a`currentOp, a`aqRequired, a`macFilters
    ensures old(a.currentOp) != OpUnknown ==>
              unchanged(a) && sent == []
    ensures old(a.currentOp) == OpUnknown && Count(old(a.macFilters), IsRemoveMarked) == 0 ==>
              a.currentOp == OpUnknown && a.macFilters == old(a.macFilters) &&
              a.aqRequired == old(a.aqRequired) - {AqDelMacFilter} && sent == []
    ensures old(a.currentOp) == OpUnknown && Count(old(a.macFilters), IsRemoveMarked) > 0 ==>
              var n := Count(old(a.macFilters), IsRemoveMarked);
              var c := FitCount(m, n);
              a.currentOp == OpDelEthAddr &&
              a.macFilters == WalkFirst(old(a.macFilters), c, IsRemoveMarked, Unlink) &&
              sent == TakeFirst(old(a.macFilters), c, IsRemoveMarked) &&
              multiset(a.macFilters) + multiset(sent) == multiset(old(a.macFilters)) &&
              len == MsgLen(m, c) &&
              a.aqRequired == (if c == n then old(a.aqRequired) - {AqDelMacFilter} else old(a.aqRequired))
  {
    sent := [];
    len := 0;
    if a.currentOp != OpUnknown {
      return;
    }
    var count := CountEntries(a.macFilters, IsRemoveMarked);
    ghost var n := count;
    if count == 0 {
      a.aqRequired := a.aqRequired - {AqDelMacFilter};
      return;
    }
    a.currentOp := OpDelEthAddr;
    var more;
    count, len, more := ShrinkToFit(m, count);
    var out;
    out, sent := WalkFirstEntries(a.macFilters, count, IsRemoveMarked, Unlink);
    WalkFirstUnlinks(a.macFilters, count, IsRemoveMarked, Unlink);
    FitCountSpec(m, n);
    a.macFilters := out;
    if !more {
      a.aqRequired := a.aqRequired - {AqDelMacFilter};
    }
  }

  /** iavf_mac_add_ok's handling of one filter. */
  function MacOkStep(f: MacFilter): seq<MacFilter>
  {
    [f.(isNewMac := false, addHandled := if !f.add && !f.addHandled then true else f.addHandled)]
  }

  /** iavf_mac_add_reject's handling of one filter, for the netdev address devAddr. */
  function MacRejectStep(devAddr: nat): MacFilter -> seq<MacFilter>
  {
    (f: MacFilter) =>
      var f1 := if f.remove && f.macaddr == devAddr then f.(remove := false) else f;
      var f2 := if !f1.add && !f1.addHandled then f1.(addHandled := true) else f1;
      if f2.isNewMac then [] else [f2]
  }

  /** iavf_mac_add_ok: the PF accepted the add request. */
  method MacAddOk(a: Adapter)
    modifies a`macFilters
    ensures a.macFilters == Walk(old(a.macFilters), MacOkStep)
  {
    a.macFilters := WalkEntries(a.macFilters, MacOkStep);
  }

  /** After iavf_mac_add_ok no filter is new, and every filter not pending add is handled. */
  lemma MacAddOkOutcome(l: seq<MacFilter>)
    ensures forall f :: f in Walk(l, MacOkStep) ==> !f.isNewMac && (!f.add ==> f.addHandled)
    ensures |Walk(l, MacOkStep)| == |l|
  {
    WalkAll(l, MacOkStep, (f: MacFilter) => !f.isNewMac && (!f.add ==> f.addHandled));
    WalkPreservesLength(l);
  }

  lemma {:induction false} WalkPreservesLength(l: seq<MacFilter>)
    ensures |Walk(l, MacOkStep)| == |l|
    decreases |l|
  {
    if |l| > 0 {
      WalkPreservesLength(l[1..]);
    }
  }

  /** iavf_mac_add_reject: the PF refused the add request. */
  method MacAddReject(a: Adapter, devAddr: nat)
    modifies a`macFilters
    ensures a.macFilters == Walk(old(a.macFilters), MacRejectStep(devAddr))
  {
    a.macFilters := WalkEntries(a.macFilters, MacRejectStep(devAddr));
  }

  /**
   * After iavf_mac_add_reject no new filter is left, a pending removal of
   * the netdev's own address is cancelled, and every filter not pending add
   * is handled; the filters that stay are exactly the ones that were not new.
   */
  lemma MacAddRejectOutcome(l: seq<MacFilter>, devAddr: nat)
    ensures forall f :: f in Walk(l, MacRejectStep(devAddr)) ==>
              !f.isNewMac && !(f.remove && f.macaddr == devAddr) && (!f.add ==> f.addHandled)
    ensures |Walk(l, MacRejectStep(devAddr))| == |l| - Count(l, (f: MacFilter) => f.isNewMac)
  {
    WalkAll(l, MacRejectStep(devAddr),
            (f: MacFilter) => !f.isNewMac && !(f.remove && f.macaddr == devAddr) && (!f.add ==> f.addHandled));
    RejectLength(l, devAddr);
  }

  lemma {:induction false} RejectLength(l: seq<MacFilter>, devAddr: nat)
    ensures |Walk(l, MacRejectStep(devAddr))| == |l| - Count(l, (f: MacFilter) => f.isNewMac)
    decreases |l|
  {
    if |l| > 0 {
      RejectLength(l[1..], devAddr);
    }
  }

  // ---------------------------------------------------------------------
  // VLAN filters
  // ---------------------------------------------------------------------

  predicate IsVlanAdd(f: VlanFilter) { f.state == VlanAdd }
  predicate IsVlanIsNew(f: VlanFilter) { f.state == VlanIsNew }
  predicate IsVlanRemove(f: VlanFilter) { f.state == VlanRemove }
  predicate IsVlanToDelete(f: VlanFilter) { f.state == VlanRemove || f.state == VlanDisable }

  function MarkIsNew(f: VlanFilter): seq<VlanFilter> { [f.(state := VlanIsNew)] }
  function MarkActive(f: VlanFilter): seq<VlanFilter> { if f.state == VlanIsNew then [f.(state := VlanActive)] else [f] }
  function DropIsNew(f: VlanFilter): seq<VlanFilter> { if f.state == VlanIsNew then [] else [f] }

  /** A sent delete: DISABLE filters become INACTIVE, REMOVE filters are freed. */
  function DeleteSent(f: VlanFilter): seq<VlanFilter>
  {
    if f.state == VlanDisable then [f.(state := VlanInactive)] else []
  }

  /** The first walk of iavf_del_vlans when the PF cannot filter VLANs. */
  function DeleteLocally(f: VlanFilter): seq<VlanFilter>
  {
    if f.state == VlanRemove then []
    else if f.state == VlanDisable then [f.(state := VlanInactive)]
    else [f]
  }

  /**
   * The V2 count limit of iavf_add_vlans: when the new filters would exceed
   * max_filters and there is room, only the room is requested.
   */
  function V2Count(count: nat, current: nat, max: nat): (c: nat)
    ensures c <= count
    ensures current < max ==> current + c <= max
    ensures count >= 1 && current < max ==> c >= 1
  {
    if count + current > max && current < max then max - current else count
  }

  /**
   * iavf_add_vlans: moves the first `count` ADD filters to IS_NEW and sends
   * them, as a V1 message when VLAN_ALLOWED and otherwise as a V2 message
   * whose count is also held to the PF's max_filters. `numAdded` is
   * iavf_get_num_vlans_added, which is not part of this model.
   */
  method AddVlans(a: Adapter, m1: MsgLayout, m2: MsgLayout, numAdded: nat)
    returns (sent: seq<VlanFilter>, len: nat)
    requires ValidLayout(m1) && ValidLayout(m2)
    modifies a`currentOp, a`aqRequired, a`vlanFilters
    ensures old(a.currentOp) != OpUnknown ==> unchanged(a) && sent == []
    ensures old(a.currentOp) == OpUnknown &&
            (Count(old(a.vlanFilters), IsVlanAdd) == 0 || !a.VlanFilteringAllowed()) ==>
              a.currentOp == OpUnknown && a.vlanFilters == old(a.vlanFilters) &&
              a.aqRequired == old(a.aqRequired) - {AqAddVlanFilter} && sent == []
    ensures old(a.currentOp) == OpUnknown &&
            Count(old(a.vlanFilters), IsVlanAdd) > 0 && a.VlanFilteringAllowed() ==>
              var n := Count(old(a.vlanFilters), IsVlanAdd);
              var limited := if a.vlanAllowed then n else V2Count(n, numAdded, a.maxVlanFilters);
              var c := FitCount(if a.vlanAllowed then m1 else m2, limited);
              a.currentOp == (if a.vlanAllowed then OpAddVlan else OpAddVlanV2) &&
              a.vlanFilters == WalkFirst(old(a.vlanFilters), c, IsVlanAdd, MarkIsNew) &&
              sent == TakeFirst(old(a.vlanFilters), c, IsVlanAdd) &&
              len == MsgLen(if a.vlanAllowed then m1 else m2, c) &&
              a.aqRequired == (if c == n then old(a.aqRequired) - {AqAddVlanFilter} else old(a.aqRequired))
  {
    sent := [];
    len := 0;
    if a.currentOp != OpUnknown {
      return;
    }
    var count := CountEntries(a.vlanFilters, IsVlanAdd);
    ghost var n := count;
    if count == 0 || !a.VlanFilteringAllowed() {
      a.aqRequired := a.aqRequired - {AqAddVlanFilter};
      return;
    }
    var limited := count;
    if !a.vlanAllowed && count + numAdded > a.maxVlanFilters && numAdded < a.maxVlanFilters {
      limited := a.maxVlanFilters - numAdded;
    }
    var m := if a.vlanAllowed then m1 else m2;
    sent, len := AddVlansSend(a, m, if a.vlanAllowed then OpAddVlan else OpAddVlanV2, count, limited);
  }

  /**
   * The message-building part of iavf_add_vlans: up to `limited` of the
   * `n` ADD filters, shrunk to fit layout m, are sent with opcode op; the
   * flag stays set when any ADD filter is left over.
   */
  method AddVlansSend(a: Adapter, m: MsgLayout, op: VirtchnlOp, n: nat, limited: nat)
    returns (sent: seq<VlanFilter>, len: nat)
    requires ValidLayout(m) && 1 <= limited <= n && n == Count(a.vlanFilters, IsVlanAdd)
    modifies a`currentOp, a`aqRequired, a`vlanFilters
    ensures var c := FitCount(m, limited);
            a.currentOp == op &&
            a.vlanFilters == WalkFirst(old(a.vlanFilters), c, IsVlanAdd, MarkIsNew) &&
            sent == TakeFirst(old(a.vlanFilters), c, IsVlanAdd) &&
            len == MsgLen(m, c) &&
            a.aqRequired == (if c == n then old(a.aqRequired) - {AqAddVlanFilter} else old(a.aqRequired))
  {
    a.currentOp := op;
    FitCountSpec(m, limited);
    var c, more;
    c, len, more := ShrinkToFit(m, limited);
    var out;
    out, sent := WalkFirstEntries(a.vlanFilters, c, IsVlanAdd, MarkIsNew);
    a.vlanFilters := out;
    if !more && limited == n {
      a.aqRequired := a.aqRequired - {AqAddVlanFilter};
    }
  }

  /** A V2 request never asks for more filters than the PF has room for. */
  lemma AddVlansV2Room(n: nat, numAdded: nat, max: nat, m2: MsgLayout)
    requires ValidLayout(m2) && n >= 1 && numAdded < max
    ensures numAdded + FitCount(m2, V2Count(n, numAdded, max)) <= max
  {
    FitCountSpec(m2, V2Count(n, numAdded, max));
  }

  /**
   * iavf_del_vlans. Without VLAN filtering, REMOVE filters are freed and
   * DISABLE filters become INACTIVE with no message. Otherwise the first
   * `count` REMOVE or DISABLE filters are sent: DISABLE ones become
   * INACTIVE, REMOVE ones are freed, and num_vlan_filters drops by the
   * number freed.
   */
  method DelVlans(a: Adapter, m1: MsgLayout, m2: MsgLayout)
    returns (sent: seq<VlanFilter>, len: nat)
    requires ValidLayout(m1) && ValidLayout(m2)
    modifies a`currentOp, a`aqRequired, a`vlanFilters, a`numVlanFilters
    ensures old(a.currentOp) != OpUnknown ==> unchanged(a) && sent == []
    ensures old(a.currentOp) == OpUnknown && !a.VlanFilteringAllowed() ==>
              a.currentOp == OpUnknown &&
              a.vlanFilters == Walk(old(a.vlanFilters), DeleteLocally) &&
              a.numVlanFilters == old(a.numVlanFilters) - Count(old(a.vlanFilters), IsVlanRemove) &&
              a.aqRequired == old(a.aqRequired) - {AqDelVlanFilter} && sent == []
    ensures old(a.currentOp) == OpUnknown && a.VlanFilteringAllowed() &&
            Count(old(a.vlanFilters), IsVlanToDelete) == 0 ==>
              a.currentOp == OpUnknown && a.vlanFilters == old(a.vlanFilters) &&
              a.numVlanFilters == old(a.numVlanFilters) &&
              a.aqRequired == old(a.aqRequired) - {AqDelVlanFilter} && sent == []
    ensures old(a.currentOp) == OpUnknown && a.VlanFilteringAllowed() &&
            Count(old(a.vlanFilters), IsVlanToDelete) > 0 ==>
              var n := Count(old(a.vlanFilters), IsVlanToDelete);
              var m := if a.vlanAllowed then m1 else m2;
              var c := FitCount(m, n);
              a.currentOp == (if a.vlanAllowed then OpDelVlan else OpDelVlanV2) &&
              a.vlanFilters == WalkFirst(old(a.vlanFilters), c, IsVlanToDelete, DeleteSent) &&
              sent == TakeFirst(old(a.vlanFilters), c, IsVlanToDelete) &&
              a.numVlanFilters == old(a.numVlanFilters) - Count(sent, IsVlanRemove) &&
              len == MsgLen(m, c) &&
              a.aqRequired == (if c == n then old(a.aqRequired) - {AqDelVlanFilter} else old(a.aqRequired))
  {
    sent := [];
    len := 0;
    if a.currentOp != OpUnknown {
      return;
    }
    if !a.VlanFilteringAllowed() {
      DelVlansLocally(a);
      return;
    }
    var m := if a.vlanAllowed then m1 else m2;
    sent, len := DelVlansSend(a, m, if a.vlanAllowed then OpDelVlan else OpDelVlanV2);
  }

  /** The first walk of iavf_del_vlans, when the PF cannot filter VLANs. */
  method DelVlansLocally(a: Adapter)
    modifies a`aqRequired, a`vlanFilters, a`numVlanFilters
    ensures a.vlanFilters == Walk(old(a.vlanFilters), DeleteLocally)
    ensures a.numVlanFilters == old(a.numVlanFilters) - Count(old(a.vlanFilters), IsVlanRemove)
    ensures a.aqRequired == old(a.aqRequired) - {AqDelVlanFilter}
  {
    var l := a.vlanFilters;
    var removed := CountEntries(l, IsVlanRemove);
    a.vlanFilters := WalkEntries(l, DeleteLocally);
    a.numVlanFilters := a.numVlanFilters - removed;
    a.aqRequired := a.aqRequired - {AqDelVlanFilter};
  }

  /** The message-building part of iavf_del_vlans, for the V1 or V2 layout m and opcode op. */
  method DelVlansSend(a: Adapter, m: MsgLayout, op: VirtchnlOp) returns (sent: seq<VlanFilter>, len: nat)
    requires ValidLayout(m)
    modifies a`currentOp, a`aqRequired, a`vlanFilters, a`numVlanFilters
    ensures Count(old(a.vlanFilters), IsVlanToDelete) == 0 ==>
              a.currentOp == old(a.currentOp) && a.vlanFilters == old(a.vlanFilters) &&
              a.numVlanFilters == old(a.numVlanFilters) &&
              a.aqRequired == old(a.aqRequired) - {AqDelVlanFilter} && sent == [] && len == 0
    ensures Count(old(a.vlanFilters), IsVlanToDelete) > 0 ==>
              var n := Count(old(a.vlanFilters), IsVlanToDelete);
              var c := FitCount(m, n);
              a.currentOp == op &&
              a.vlanFilters == WalkFirst(old(a.vlanFilters), c, IsVlanToDelete, DeleteSent) &&
              sent == TakeFirst(old(a.vlanFilters), c, IsVlanToDelete) &&
              a.numVlanFilters == old(a.numVlanFilters) - Count(sent, IsVlanRemove) &&
              len == MsgLen(m, c) &&
              a.aqRequired == (if c == n then old(a.aqRequired) - {AqDelVlanFilter} else old(a.aqRequired))
  {
    sent, len := [], 0;
    var l := a.vlanFilters;
    var count := CountEntries(l, IsVlanToDelete);
    if count == 0 {
      a.aqRequired := a.aqRequired - {AqDelVlanFilter};
      return;
    }
    a.currentOp := op;
    FitCountSpec(m, count);
    var more;
    count, len, more := ShrinkToFit(m, count);
    var out;
    out, sent := WalkFirstEntries(l, count, IsVlanToDelete, DeleteSent);
    var freed := CountEntries(sent, IsVlanRemove);
    a.vlanFilters := out;
    a.numVlanFilters := a.numVlanFilters - freed;
    if !more {
      a.aqRequired := a.aqRequired - {AqDelVlanFilter};
    }
  }

  /** Without VLAN filtering, iavf_del_vlans leaves no filter waiting for deletion. */
  lemma DelVlansLocalOutcome(l: seq<VlanFilter>)
    ensures forall f :: f in Walk(l, DeleteLocally) ==> !IsVlanToDelete(f)
  {
    WalkAll(l, DeleteLocally, (f: VlanFilter) => !IsVlanToDelete(f));
  }

  /** After a sent delete, c fewer filters wait for deletion. */
  lemma DelVlansSentOutcome(l: seq<VlanFilter>, c: nat)
    requires c <= Count(l, IsVlanToDelete)
    ensures Count(WalkFirst(l, c, IsVlanToDelete, DeleteSent), IsVlanToDelete) == Count(l, IsVlanToDelete) - c
    ensures |TakeFirst(l, c, IsVlanToDelete)| == c
  {
    forall x | IsVlanToDelete(x)
      ensures Count(DeleteSent(x), IsVlanToDelete) == 0
    {
      if x.state == VlanDisable {
        assert DeleteSent(x)[1..] == [];
      }
    }
    WalkFirstCount(l, c, IsVlanToDelete, DeleteSent);
    TakeFirstSpec(l, c, IsVlanToDelete);
  }

  /** iavf_vlan_add_reject: IS_NEW filters are freed and num_vlan_filters drops by their number. */
  method VlanAddReject(a: Adapter)
    modifies a`vlanFilters, a`numVlanFilters
    ensures a.vlanFilters == Walk(old(a.vlanFilters), DropIsNew)
    ensures a.numVlanFilters == old(a.numVlanFilters) - Count(old(a.vlanFilters), IsVlanIsNew)
  {
    var freed := CountEntries(a.vlanFilters, IsVlanIsNew);
    a.vlanFilters := WalkEntries(a.vlanFilters, DropIsNew);
    a.numVlanFilters := a.numVlanFilters - freed;
  }

  /** The ADD_VLAN_V2 completion: IS_NEW filters become ACTIVE. */
  method VlanAddV2Done(a: Adapter)
    modifies a`vlanFilters
    ensures a.vlanFilters == Walk(old(a.vlanFilters), MarkActive)
  {
    a.vlanFilters := WalkEntries(a.vlanFilters, MarkActive);
  }

  /** Neither a V2 rejection nor a V2 success leaves a filter in IS_NEW. */
  lemma VlanAddV2Outcome(l: seq<VlanFilter>)
    ensures forall f :: f in Walk(l, DropIsNew) ==> f.state != VlanIsNew
    ensures forall f :: f in Walk(l, MarkActive) ==> f.state != VlanIsNew
  {
    WalkAll(l, DropIsNew, (f: VlanFilter) => f.state != VlanIsNew);
    WalkAll(l, MarkActive, (f: VlanFilter) => f.state != VlanIsNew);
  }

  // ---------------------------------------------------------------------
  // Promiscuous mode, statistics, queues
  // ---------------------------------------------------------------------

  /** The virtchnl_promisc_info flags for the netdev's IFF_PROMISC and IFF_ALLMULTI. */
  function PromiscFlags(promisc: bool, allmulti: bool): (flags: nat)
  {
    if !promisc && allmulti then FLAG_VF_MULTICAST_PROMISC
    else if !promisc && !allmulti then 0
    else FLAG_VF_UNICAST_PROMISC + FLAG_VF_MULTICAST_PROMISC
  }

  /** Unicast promiscuity follows IFF_PROMISC; multicast follows either flag. */
  lemma PromiscFlagsMeaning(promisc: bool, allmulti: bool)
    ensures (PromiscFlags(promisc, allmulti) % 2 == 1) <==> promisc
    ensures (PromiscFlags(promisc, allmulti) / 2 % 2 == 1) <==> promisc || allmulti
    ensures PromiscFlags(promisc, allmulti) < 4
  {
  }

  /**
   * iavf_set_promiscuous. `changed` is iavf_promiscuous_mode_changed, which
   * is not part of this model. Returns the flags sent, if any.
   */
  method SetPromiscuous(a: Adapter, promisc: bool, allmulti: bool, changed: bool) returns (flags: Option<nat>)
    modifies a`currentOp, a`aqRequired, a`curPromisc, a`curAllmulti
    ensures old(a.currentOp) != OpUnknown ==> unchanged(a) && flags == None
    ensures old(a.currentOp) == OpUnknown && !changed ==>
              a.aqRequired == old(a.aqRequired) - {AqConfigurePromiscMode} &&
              a.currentOp == OpUnknown && a.curPromisc == old(a.curPromisc) &&
              a.curAllmulti == old(a.curAllmulti) && flags == None
    ensures old(a.currentOp) == OpUnknown && changed ==>
              a.aqRequired == old(a.aqRequired) - {AqConfigurePromiscMode} &&
              a.currentOp == OpConfigPromiscuousMode &&
              a.curPromisc == promisc && a.curAllmulti == allmulti &&
              flags == Some(PromiscFlags(promisc, allmulti))
  {
    if a.currentOp != OpUnknown {
      return None;
    }
    if !changed {
      a.aqRequired := a.aqRequired - {AqConfigurePromiscMode};
      return None;
    }
    var f: nat;
    if !promisc && allmulti {
      f := FLAG_VF_MULTICAST_PROMISC;
      a.curAllmulti := true;
      a.curPromisc := false;
    } else if !promisc && !allmulti {
      f := 0;
      a.curPromisc := false;
      a.curAllmulti := false;
    } else {
      f := FLAG_VF_UNICAST_PROMISC + FLAG_VF_MULTICAST_PROMISC;
      a.curPromisc := true;
      a.curAllmulti := allmulti;
    }
    a.aqRequired := a.aqRequired - {AqConfigurePromiscMode};
    a.currentOp := OpConfigPromiscuousMode;
    flags := Some(f);
  }

  /** iavf_request_stats: a failed send releases current_op again. */
  method RequestStats(a: Adapter, sendFails: bool)
    modifies a`currentOp, a`aqRequired
    ensures old(a.currentOp) != OpUnknown ==> unchanged(a)
    ensures old(a.currentOp) == OpUnknown ==>
              a.aqRequired == old(a.aqRequired) - {AqRequestStats} &&
              a.currentOp == (if sendFails then OpUnknown else OpGetStats)
  {
    if a.currentOp != OpUnknown {
      return;
    }
    a.aqRequired := a.aqRequired - {AqRequestStats};
    a.currentOp := OpGetStats;
    if sendFails {
      a.currentOp := OpUnknown;
    }
  }

  /** iavf_enable_queues: requests the low numActive queues (BIT(n) - 1, stored in a u32). */
  method EnableQueues(a: Adapter, numActive: nat) returns (queues: Option<u32>)
    requires numActive < 64
    modifies a`currentOp, a`aqRequired
    ensures old(a.currentOp) != OpUnknown ==> unchanged(a) && queues == None
    ensures old(a.currentOp) == OpUnknown ==>
              a.currentOp == OpEnableQueues && a.aqRequired == old(a.aqRequired) - {AqEnableQueues} &&
              queues == Some(Wrap32(Pow2(numActive) - 1))
  {
    if a.currentOp != OpUnknown {
      return None;
    }
    a.currentOp := OpEnableQueues;
    a.aqRequired := a.aqRequired - {AqEnableQueues};
    queues := Some(Wrap32(Pow2(numActive) - 1));
  }

  /**
   * iavf_validate_num_queues: more than IAVF_MAX_REQ_QUEUES queue pairs are
   * cut to that maximum, and every VSI's count is then set to it.
   */
  method ValidateNumQueues(a: Adapter)
    modifies a`numQueuePairs, a`vsiQueuePairs
    ensures a.numQueuePairs == Min(old(a.numQueuePairs), IAVF_MAX_REQ_QUEUES)
    ensures old(a.numQueuePairs) > IAVF_MAX_REQ_QUEUES ==>
              |a.vsiQueuePairs| == |old(a.vsiQueuePairs)| &&
              forall i :: 0 <= i < |a.vsiQueuePairs| ==> a.vsiQueuePairs[i] == IAVF_MAX_REQ_QUEUES
    ensures old(a.numQueuePairs) <= IAVF_MAX_REQ_QUEUES ==> a.vsiQueuePairs == old(a.vsiQueuePairs)
  {
    if a.numQueuePairs > IAVF_MAX_REQ_QUEUES {
      a.numQueuePairs := IAVF_MAX_REQ_QUEUES;
      var v := a.vsiQueuePairs;
      var i := 0;
      while i < |v|
        invariant 0 <= i <= |v| && |v| == |old(a.vsiQueuePairs)|
        invariant forall j :: 0 <= j < i ==> v[j] == IAVF_MAX_REQ_QUEUES
      {
        v := v[i := IAVF_MAX_REQ_QUEUES];
        i := i + 1;
      }
      a.vsiQueuePairs := v;
    }
  }

  /** The verdict of iavf_verify_api_ver once the PF's version message has arrived. */
  function ApiVerResult(pfMajor: nat, pfMinor: nat): (err: int)
    ensures err == 0 || err == -EIO
    ensures err == -EIO <==>
              pfMajor > VIRTCHNL_VERSION_MAJOR ||
              (pfMajor == VIRTCHNL_VERSION_MAJOR && pfMinor > VIRTCHNL_VERSION_MINOR)
  {
    if pfMajor > VIRTCHNL_VERSION_MAJOR ||
       (pfMajor == VIRTCHNL_VERSION_MAJOR && pfMinor > VIRTCHNL_VERSION_MINOR)
    then -EIO
    else 0
  }

  /** A PF at or below the VF's own version is accepted. */
  lemma ApiVerAcceptsOlder(pfMajor: nat, pfMinor: nat)
    requires pfMajor < VIRTCHNL_VERSION_MAJOR ||
             (pfMajor == VIRTCHNL_VERSION_MAJOR && pfMinor <= VIRTCHNL_VERSION_MINOR)
    ensures ApiVerResult(pfMajor, pfMinor) == 0
  {
  }

  /**
   * iavf_verify_api_ver: `pollErr` is the result of polling for the version
   * message; on success the PF's version is stored and checked.
   */
  method VerifyApiVer(a: Adapter, pollErr: int, pfMajor: nat, pfMinor: nat) returns (err: int)
    modifies a`pfMajor, a`pfMinor
    ensures pollErr != 0 ==> err == pollErr && unchanged(a)
    ensures pollErr == 0 ==> err == ApiVerResult(pfMajor, pfMinor) && a.pfMajor == pfMajor && a.pfMinor == pfMinor
  {
    err := pollErr;
    if err == 0 {
      a.pfMajor := pfMajor;
      a.pfMinor := pfMinor;
      if pfMajor > VIRTCHNL_VERSION_MAJOR ||
         (pfMajor == VIRTCHNL_VERSION_MAJOR && pfMinor > VIRTCHNL_VERSION_MINOR) {
        err := -EIO;
      }
    }
  }

  // ---------------------------------------------------------------------
  // Flow Director filters
  // ---------------------------------------------------------------------

  /** iavf_activate_fdir_filters' handling of one filter after a reset. */
  function ActivateStep(f: FdirFilter): seq<FdirFilter>
  {
    if f.state == FdirAddRequest || f.state == FdirAddPending || f.state == FdirActive then
      [f.(state := FdirAddRequest)]
    else if f.state == FdirDisRequest || f.state == FdirDisPending then
      [f.(state := FdirInactive)]
    else if f.state == FdirDelRequest || f.state == FdirDelPending then
      []
    else [f]
  }

  predicate NeedsReAdd(f: FdirFilter)
  {
    f.state == FdirAddRequest || f.state == FdirAddPending || f.state == FdirActive
  }

  /** The result of the PF's answer to an add request for one filter. */
  function AddDoneStep(success: bool, flowId: nat): FdirFilter -> seq<FdirFilter>
  {
    (f: FdirFilter) =>
      if f.state != FdirAddPending then [f]
      else if success then [f.(state := FdirActive, flowId := flowId)]
      else []
  }

  /** The result of the PF's answer to a delete or disable request for one filter. */
  function DelDoneStep(ok: bool): FdirFilter -> seq<FdirFilter>
  {
    (f: FdirFilter) =>
      if f.state == FdirDelPending then (if ok then [] else [f.(state := FdirActive)])
      else if f.state == FdirDisPending then [f.(state := if ok then FdirInactive else FdirActive)]
      else [f]
  }

  /** The Flow Director counters after one filter was freed, for each kind. */
  function Freed(fs: seq<FdirFilter>, step: FdirFilter -> seq<FdirFilter>, raw: bool): (n: nat)
    ensures n <= |fs|
    decreases |fs|
  {
    if |fs| == 0 then 0
    else (if fs[0].isRaw == raw && step(fs[0]) == [] then 1 else 0) + Freed(fs[1..], step, raw)
  }

  /**
   * A walk over the Flow Director list that frees filters and calls
   * iavf_dec_fdir_active_fltr for each one freed.
   */
  method WalkFdir(a: Adapter, step: FdirFilter -> seq<FdirFilter>)
    modifies a`fdirFilters, a`fdirActiveFltr, a`rawFdirActiveFltr
    ensures a.fdirFilters == Walk(old(a.fdirFilters), step)
    ensures a.fdirActiveFltr == Wrap16(old(a.fdirActiveFltr) - Freed(old(a.fdirFilters), step, false))
    ensures a.rawFdirActiveFltr == Wrap16(old(a.rawFdirActiveFltr) - Freed(old(a.fdirFilters), step, true))
  {
    var out, active, raw := WalkFdirList(a.fdirFilters, step, a.fdirActiveFltr, a.rawFdirActiveFltr);
    a.fdirFilters := out;
    a.fdirActiveFltr := active;
    a.rawFdirActiveFltr := raw;
  }

  /** The list walk of WalkFdir, over the list and the two counters. */
  method WalkFdirList(l: seq<FdirFilter>, step: FdirFilter -> seq<FdirFilter>, active0: u16, raw0: u16)
    returns (out: seq<FdirFilter>, active: u16, raw: u16)
    ensures out == Walk(l, step)
    ensures active == Wrap16(active0 - Freed(l, step, false))
    ensures raw == Wrap16(raw0 - Freed(l, step, true))
  {
    out := [];
    active := active0;
    raw := raw0;
    ghost var nActive: nat := 0;
    ghost var nRaw: nat := 0;
    var j := 0;
    FdirStart(l, step);
    while j < |l|
      invariant 0 <= j <= |l|
      invariant FdirSoFar(l, step, j, out, nActive, nRaw)
      invariant active == Wrap16(active0 - nActive)
      invariant raw == Wrap16(raw0 - nRaw)
    {
      ghost var out0, nActive0, nRaw0 := out, nActive, nRaw;
      var f := l[j];
      var r := step(f);
      if r == [] {
        if f.isRaw {
          DecStep(raw0, nRaw, raw);
          raw := CountDec(raw);
          nRaw := nRaw + 1;
        } else {
          DecStep(active0, nActive, active);
          active := CountDec(active);
          nActive := nActive + 1;
        }
      }
      out := out + r;
      FdirStep(l, step, j, out0, nActive0, nRaw0, out, nActive, nRaw);
      j := j + 1;
    }
    FdirDone(l, step, out, nActive, nRaw);
  }

  /**
   * The walk so far: out is what the first j filters became, and nActive
   * and nRaw count the ones of each kind freed among them.
   */
  ghost predicate FdirSoFar(l: seq<FdirFilter>, step: FdirFilter -> seq<FdirFilter>, j: nat,
                            out: seq<FdirFilter>, nActive: nat, nRaw: nat)
    requires j <= |l|
  {
    && Walk(l, step) == out + Walk(l[j..], step)
    && nActive + Freed(l[j..], step, false) == Freed(l, step, false)
    && nRaw + Freed(l[j..], step, true) == Freed(l, step, true)
  }

  lemma FdirStart(l: seq<FdirFilter>, step: FdirFilter -> seq<FdirFilter>)
    ensures FdirSoFar(l, step, 0, [], 0, 0)
  {
    assert l[0..] == l;
  }

  /** iavf_dec_fdir_active_fltr once more: the counter stays the u16 value of start minus the count. */
  lemma DecStep(c0: int, n: nat, c: u16)
    requires c == Wrap16(c0 - n)
    ensures CountDec(c) == Wrap16(c0 - (n + 1))
  {
    Wrap16Dec(c0 - n);
  }

  lemma FdirDone(l: seq<FdirFilter>, step: FdirFilter -> seq<FdirFilter>, out: seq<FdirFilter>, nActive: nat, nRaw: nat)
    requires FdirSoFar(l, step, |l|, out, nActive, nRaw)
    ensures out == Walk(l, step) && nActive == Freed(l, step, false) && nRaw == Freed(l, step, true)
  {
    assert l[|l|..] == [];
  }

  /** One filter more of the Flow Director walk. */
  lemma FdirStep(l: seq<FdirFilter>, step: FdirFilter -> seq<FdirFilter>, j: nat,
                 out: seq<FdirFilter>, nActive: nat, nRaw: nat, out2: seq<FdirFilter>, nActive2: nat, nRaw2: nat)
    requires j < |l| && FdirSoFar(l, step, j, out, nActive, nRaw) && out2 == out + step(l[j])
    requires nActive2 == nActive + (if step(l[j]) == [] && !l[j].isRaw then 1 else 0)
    requires nRaw2 == nRaw + (if step(l[j]) == [] && l[j].isRaw then 1 else 0)
    ensures FdirSoFar(l, step, j + 1, out2, nActive2, nRaw2)
  {
    FreedStep(l, j, step);
    assert out + Walk(l[j..], step) == (out + step(l[j])) + Walk(l[j + 1..], step);
  }

  /** One step of the Flow Director walk, unfolded. */
  lemma FreedStep(l: seq<FdirFilter>, j: nat, step: FdirFilter -> seq<FdirFilter>)
    requires j < |l|
    ensures Walk(l[j..], step) == step(l[j]) + Walk(l[j + 1..], step)
    ensures Freed(l[j..], step, false) == (if !l[j].isRaw && step(l[j]) == [] then 1 else 0) + Freed(l[j + 1..], step, false)
    ensures Freed(l[j..], step, true) == (if l[j].isRaw && step(l[j]) == [] then 1 else 0) + Freed(l[j + 1..], step, true)
  {
    assert l[j..][1..] == l[j + 1..];
  }

  /**
   * iavf_activate_fdir_filters: after a reset every added or pending filter
   * is requested again, disabled ones become inactive and those pending
   * deletion are freed; IAVF_FLAG_AQ_ADD_FDIR_FILTER is raised when anything
   * is to be added.
   */
  method ActivateFdirFilters(a: Adapter)
    modifies a`fdirFilters, a`fdirActiveFltr, a`rawFdirActiveFltr, a`aqRequired
    ensures FdirActivated(old(a.fdirFilters), old(a.fdirActiveFltr), old(a.rawFdirActiveFltr),
                          a.fdirFilters, a.fdirActiveFltr, a.rawFdirActiveFltr)
    ensures a.aqRequired ==
              if Count(old(a.fdirFilters), NeedsReAdd) > 0 then old(a.aqRequired) + {AqAddFdirFilter}
              else old(a.aqRequired)
  {
    a.fdirFilters, a.fdirActiveFltr, a.rawFdirActiveFltr, a.aqRequired :=
      ActivatedFdir(a.fdirFilters, a.fdirActiveFltr, a.rawFdirActiveFltr, a.aqRequired);
  }

  /**
   * The Flow Director list and its two counters after a walk with `step`
   * over l0: every freed filter drops the u16 counter of its kind.
   */
  predicate FdirWalked(l0: seq<FdirFilter>, active0: u16, raw0: u16, step: FdirFilter -> seq<FdirFilter>,
                       l: seq<FdirFilter>, active: u16, raw: u16)
  {
    && l == Walk(l0, step)
    && active == Wrap16(active0 - Freed(l0, step, false))
    && raw == Wrap16(raw0 - Freed(l0, step, true))
  }

  /** The list and counters after the ActivateStep walk of iavf_activate_fdir_filters. */
  predicate FdirActivated(l0: seq<FdirFilter>, active0: u16, raw0: u16, l: seq<FdirFilter>, active: u16, raw: u16)
  {
    FdirWalked(l0, active0, raw0, ActivateStep, l, active, raw)
  }

  /** The list loops of iavf_activate_fdir_filters over the list, the two counters and aq_required. */
  method ActivatedFdir(l: seq<FdirFilter>, active0: u16, raw0: u16, aq0: set<AqFlag>)
    returns (out: seq<FdirFilter>, active: u16, raw: u16, aq: set<AqFlag>)
    ensures FdirActivated(l, active0, raw0, out, active, raw)
    ensures aq == if Count(l, NeedsReAdd) > 0 then aq0 + {AqAddFdirFilter} else aq0
  {
    var addFilters := CountEntries(l, NeedsReAdd);
    out, active, raw := WalkFdirList(l, ActivateStep, active0, raw0);
    aq := if addFilters > 0 then aq0 + {AqAddFdirFilter} else aq0;
  }

  /** After a reset every Flow Director filter is either waiting to be added or inactive. */
  lemma ActivateOutcome(l: seq<FdirFilter>)
    ensures forall f :: f in Walk(l, ActivateStep) ==> f.state == FdirAddRequest || f.state == FdirInactive
  {
    WalkAll(l, ActivateStep, (f: FdirFilter) => f.state == FdirAddRequest || f.state == FdirInactive);
  }

  /**
   * The ADD_FDIR_FILTER completion: each ADD_PENDING filter becomes ACTIVE
   * with the PF's flow id on success, or is freed.
   */
  method FdirAddDone(a: Adapter, success: bool, flowId: nat)
    modifies a`fdirFilters, a`fdirActiveFltr, a`rawFdirActiveFltr
    ensures a.fdirFilters == Walk(old(a.fdirFilters), AddDoneStep(success, flowId))
    ensures a.fdirActiveFltr ==
              Wrap16(old(a.fdirActiveFltr) - Freed(old(a.fdirFilters), AddDoneStep(success, flowId), false))
    ensures a.rawFdirActiveFltr ==
              Wrap16(old(a.rawFdirActiveFltr) - Freed(old(a.fdirFilters), AddDoneStep(success, flowId), true))
  {
    WalkFdir(a, AddDoneStep(success, flowId));
  }

  /** The DEL_FDIR_FILTER completion. */
  method FdirDelDone(a: Adapter, ok: bool)
    modifies a`fdirFilters, a`fdirActiveFltr, a`rawFdirActiveFltr
    ensures a.fdirFilters == Walk(old(a.fdirFilters), DelDoneStep(ok))
    ensures a.fdirActiveFltr == Wrap16(old(a.fdirActiveFltr) - Freed(old(a.fdirFilters), DelDoneStep(ok), false))
    ensures a.rawFdirActiveFltr == Wrap16(old(a.rawFdirActiveFltr) - Freed(old(a.fdirFilters), DelDoneStep(ok), true))
  {
    WalkFdir(a, DelDoneStep(ok));
  }

  /**
   * No filter stays pending once its answer is in: a successful add leaves
   * it ACTIVE with the PF's flow id, and a failed one frees it.
   */
  lemma FdirAddDoneOutcome(l: seq<FdirFilter>, success: bool, flowId: nat)
    ensures forall f :: f in Walk(l, AddDoneStep(success, flowId)) ==> f.state != FdirAddPending
    ensures success ==> Freed(l, AddDoneStep(success, flowId), false) == 0 &&
                        Freed(l, AddDoneStep(success, flowId), true) == 0
  {
    WalkAll(l, AddDoneStep(success, flowId), (f: FdirFilter) => f.state != FdirAddPending);
    if success {
      NoneFreed(l, AddDoneStep(success, flowId), false);
      NoneFreed(l, AddDoneStep(success, flowId), true);
    }
  }

  /** A walk whose step keeps every entry frees nothing. */
  lemma {:induction false} IdentityFreesNone(l: seq<FdirFilter>, step: FdirFilter -> seq<FdirFilter>, raw: bool)
    requires forall x :: x in l ==> step(x) == [x]
    ensures Freed(l, step, raw) == 0
    decreases |l|
  {
    if |l| > 0 {
      assert l[0] in l;
      forall x | x in l[1..] ensures step(x) == [x] {
        assert x in l;
      }
      IdentityFreesNone(l[1..], step, raw);
    }
  }

  lemma {:induction false} NoneFreed(l: seq<FdirFilter>, step: FdirFilter -> seq<FdirFilter>, raw: bool)
    requires forall f :: step(f) != []
    ensures Freed(l, step, raw) == 0
    decreases |l|
  {
    if |l| > 0 {
      NoneFreed(l[1..], step, raw);
    }
  }

  /** Once a delete or disable answer is in, no filter is DEL_PENDING or DIS_PENDING. */
  lemma FdirDelDoneOutcome(l: seq<FdirFilter>, ok: bool)
    ensures forall f :: f in Walk(l, DelDoneStep(ok)) ==> f.state != FdirDelPending && f.state != FdirDisPending
  {
    WalkAll(l, DelDoneStep(ok), (f: FdirFilter) => f.state != FdirDelPending && f.state != FdirDisPending);
  }

  // ---------------------------------------------------------------------
  // Completion
  // ---------------------------------------------------------------------

  /**
   * The parts of a PF reply that the modelled completion cases read.
   * payloadSizeOk says whether msglen is the size the opcode's payload
   * needs (sizeof(u64) for GET_SUPPORTED_RXDIDS, sizeof(hw_caps) for
   * 1588_PTP_GET_CAPS).
   */
  datatype PfReply = PfReply(
    fdirSuccess: bool, flowId: nat, fdirDelOk: bool,
    numQueuePairs: int, vsiQueuePairs: seq<int>, payloadSizeOk: bool)

  /** The GET_VF_RESOURCES re-add of every VLAN filter when V1 VLANs are allowed. */
  function ReAddVlan(f: VlanFilter): seq<VlanFilter> { [f.(state := VlanAdd)] }

  /** After the re-add every VLAN filter is waiting to be added, and the VLANs themselves are kept. */
  lemma ReAddOutcome(l: seq<VlanFilter>)
    ensures forall f :: f in Walk(l, ReAddVlan) ==> f.state == VlanAdd
    ensures |Walk(l, ReAddVlan)| == |l|
    ensures forall i :: 0 <= i < |l| ==> Walk(l, ReAddVlan)[i] == l[i].(state := VlanAdd)
  {
    WalkAll(l, ReAddVlan, (f: VlanFilter) => f.state == VlanAdd);
    ReAddKeepsOrder(l);
  }

  lemma {:induction false} ReAddKeepsOrder(l: seq<VlanFilter>)
    ensures |Walk(l, ReAddVlan)| == |l|
    ensures forall i :: 0 <= i < |l| ==> Walk(l, ReAddVlan)[i] == l[i].(state := VlanAdd)
    decreases |l|
  {
    if |l| > 0 {
      ReAddKeepsOrder(l[1..]);
      assert Walk(l, ReAddVlan) == [l[0].(state := VlanAdd)] + Walk(l[1..], ReAddVlan);
    }
  }

  /** A walk whose step keeps every entry as it is changes nothing. */
  lemma {:induction false} WalkIdentity<T>(l: seq<T>, step: T -> seq<T>)
    requires forall x :: x in l ==> step(x) == [x]
    ensures Walk(l, step) == l
    decreases |l|
  {
    if |l| > 0 {
      assert l == [l[0]] + l[1..];
      WalkIdentity(l[1..], step);
    }
  }

  /**
   * The replies after which iavf_virtchnl_completion returns before its
   * final reset of current_op: a PF event; a VERSION or CONFIG_IRQ_MAP
   * reply that is not the one outstanding; a GET_SUPPORTED_RXDIDS or
   * 1588_PTP_GET_CAPS reply of the wrong size.
   */
  predicate KeepsCurrentOp(op: VirtchnlOp, currentOp: VirtchnlOp, reply: PfReply)
  {
    || op == OpEvent
    || ((op == OpVersion || op == OpConfigIrqMap) && op != currentOp)
    || ((op == OpGetSupportedRxdids || op == Op1588PtpGetCaps) && !reply.payloadSizeOk)
  }

  /** The lists, counters and requests of the adapter that a completion can change. */
  datatype AdapterLists = AdapterLists(
    macFilters: seq<MacFilter>, vlanFilters: seq<VlanFilter>, numVlanFilters: int,
    fdirFilters: seq<FdirFilter>, fdirActive: u16, rawFdirActive: u16,
    aqRequired: set<AqFlag>, numQueuePairs: int, vsiQueuePairs: seq<int>)

  function ListsOf(a: Adapter): AdapterLists
    reads a
  {
    AdapterLists(a.macFilters, a.vlanFilters, a.numVlanFilters, a.fdirFilters, a.fdirActiveFltr,
                 a.rawFdirActiveFltr, a.aqRequired, a.numQueuePairs, a.vsiQueuePairs)
  }

  /**
   * What a completion of opcode op with v_retval retval does to the lists
   * b, giving r. The error switch runs first and the success switch after
   * it; each opcode touches only its own lists, and every list an opcode
   * does not name is left as it was. `vlanAllowed` is VLAN_ALLOWED.
   */
  predicate Completed(op: VirtchnlOp, retval: int, reply: PfReply, devAddr: nat, vlanAllowed: bool,
                      b: AdapterLists, r: AdapterLists)
  {
    && r.macFilters == (if op != OpAddEthAddr then b.macFilters
                        else if retval == 0 then Walk(b.macFilters, MacOkStep)
                        else Walk(b.macFilters, MacRejectStep(devAddr)))
    && r.vlanFilters == (if op == OpAddVlanV2 then
                           (if retval == 0 then Walk(b.vlanFilters, MarkActive) else Walk(b.vlanFilters, DropIsNew))
                         else if op == OpGetVfResources && vlanAllowed && |b.vlanFilters| > 0 then
                           Walk(b.vlanFilters, ReAddVlan)
                         else b.vlanFilters)
    && r.numVlanFilters == b.numVlanFilters
         - (if op == OpAddVlanV2 && retval != 0 then Count(b.vlanFilters, IsVlanIsNew) else 0)
    && (op == OpAddFdirFilter ==>
          FdirWalked(b.fdirFilters, b.fdirActive, b.rawFdirActive, AddFdirAnswer(retval, reply),
                     r.fdirFilters, r.fdirActive, r.rawFdirActive))
    && (op == OpDelFdirFilter ==>
          FdirWalked(b.fdirFilters, b.fdirActive, b.rawFdirActive, DelDoneStep(retval == 0 && reply.fdirDelOk),
                     r.fdirFilters, r.fdirActive, r.rawFdirActive))
    && (op == OpGetVfResources ==>
          && FdirActivated(b.fdirFilters, b.fdirActive, b.rawFdirActive, r.fdirFilters, r.fdirActive, r.rawFdirActive)
          && r.numQueuePairs == Min(reply.numQueuePairs, IAVF_MAX_REQ_QUEUES)
          && (reply.numQueuePairs <= IAVF_MAX_REQ_QUEUES ==> r.vsiQueuePairs == reply.vsiQueuePairs)
          && (reply.numQueuePairs > IAVF_MAX_REQ_QUEUES ==>
                |r.vsiQueuePairs| == |reply.vsiQueuePairs| &&
                forall i :: 0 <= i < |r.vsiQueuePairs| ==> r.vsiQueuePairs[i] == IAVF_MAX_REQ_QUEUES)
          && r.aqRequired == b.aqRequired
               + (if vlanAllowed && |b.vlanFilters| > 0 then {AqAddVlanFilter} else {})
               + (if Count(b.fdirFilters, NeedsReAdd) > 0 then {AqAddFdirFilter} else {}))
    && (op != OpAddFdirFilter && op != OpDelFdirFilter && op != OpGetVfResources ==>
          r.fdirFilters == b.fdirFilters && r.fdirActive == b.fdirActive && r.rawFdirActive == b.rawFdirActive)
    && (op != OpGetVfResources ==>
          r.aqRequired == b.aqRequired && r.numQueuePairs == b.numQueuePairs && r.vsiQueuePairs == b.vsiQueuePairs)
  }

  /**
   * What the lists look like after a completion: no MAC filter is new after
   * an ADD_ETH_ADDR reply, no VLAN filter is IS_NEW after an ADD_VLAN_V2
   * reply, no Flow Director filter is pending after an ADD or DEL reply,
   * and after GET_VF_RESOURCES every Flow Director filter is waiting to be
   * added or inactive (and, when V1 VLANs are allowed, every VLAN filter
   * waits to be added).
   */
  lemma CompletedOutcome(op: VirtchnlOp, retval: int, reply: PfReply, devAddr: nat, vlanAllowed: bool,
                         b: AdapterLists, r: AdapterLists)
    requires Completed(op, retval, reply, devAddr, vlanAllowed, b, r)
    ensures op == OpAddEthAddr ==> forall f :: f in r.macFilters ==> !f.isNewMac
    ensures op == OpAddVlanV2 ==> forall f :: f in r.vlanFilters ==> f.state != VlanIsNew
    ensures op == OpAddFdirFilter ==> forall f :: f in r.fdirFilters ==> f.state != FdirAddPending
    ensures op == OpDelFdirFilter ==>
              forall f :: f in r.fdirFilters ==> f.state != FdirDelPending && f.state != FdirDisPending
    ensures op == OpGetVfResources ==>
              forall f :: f in r.fdirFilters ==> f.state == FdirAddRequest || f.state == FdirInactive
    ensures op == OpGetVfResources && vlanAllowed ==> forall f :: f in r.vlanFilters ==> f.state == VlanAdd
  {
    MacAddOkOutcome(b.macFilters);
    MacAddRejectOutcome(b.macFilters, devAddr);
    VlanAddV2Outcome(b.vlanFilters);
    FdirAddDoneOutcome(b.fdirFilters, reply.fdirSuccess, reply.flowId);
    FdirAddDoneOutcome(b.fdirFilters, false, 0);
    FdirDelDoneOutcome(b.fdirFilters, retval == 0 && reply.fdirDelOk);
    ActivateOutcome(b.fdirFilters);
    ReAddOutcome(b.vlanFilters);
  }

  /**
   * iavf_virtchnl_completion, as far as the adapter's lists go. The early
   * returns of KeepsCurrentOp leave current_op and every list alone; every
   * other reply changes the lists as Completed says and ends with
   * current_op back at UNKNOWN. `devAddr` is the netdev's address.
   */
  method VirtchnlCompletion(a: Adapter, op: VirtchnlOp, retval: int, reply: PfReply, devAddr: nat)
    modifies a`currentOp, a`macFilters, a`vlanFilters, a`numVlanFilters, a`fdirFilters,
             a`fdirActiveFltr, a`rawFdirActiveFltr, a`aqRequired, a`numQueuePairs, a`vsiQueuePairs
    ensures KeepsCurrentOp(op, old(a.currentOp), reply) ==>
              a.currentOp == old(a.currentOp) && ListsOf(a) == old(ListsOf(a))
    ensures !KeepsCurrentOp(op, old(a.currentOp), reply) ==>
              a.currentOp == OpUnknown && Completed(op, retval, reply, devAddr, a.vlanAllowed, old(ListsOf(a)), ListsOf(a))
  {
    if KeepsCurrentOp(op, a.currentOp, reply) {
      return;
    }
    CompletionSwitch(a, op, retval, reply, devAddr);
    a.currentOp := OpUnknown;
  }

  /** The error switch and the success switch of iavf_virtchnl_completion for the modelled opcodes. */
  method CompletionSwitch(a: Adapter, op: VirtchnlOp, retval: int, reply: PfReply, devAddr: nat)
    modifies a`macFilters, a`vlanFilters, a`numVlanFilters, a`fdirFilters,
             a`fdirActiveFltr, a`rawFdirActiveFltr, a`aqRequired, a`numQueuePairs, a`vsiQueuePairs
    ensures Completed(op, retval, reply, devAddr, a.vlanAllowed, old(ListsOf(a)), ListsOf(a))
  {
    match op {
      case OpAddEthAddr => CompleteAddEthAddr(a, retval, devAddr);
      case OpGetVfResources => CompleteGetVfResources(a, reply);
      case OpAddFdirFilter => CompleteAddFdir(a, retval, reply);
      case OpDelFdirFilter => CompleteDelFdir(a, retval, reply);
      case OpAddVlanV2 => CompleteAddVlanV2(a, retval);
      case _ =>
    }
  }

  // The error switch and the success switch of iavf_virtchnl_completion touch
  // only the opcode's own list, so each opcode's two parts are kept together.

  method CompleteAddEthAddr(a: Adapter, retval: int, devAddr: nat)
    modifies a`macFilters
    ensures retval == 0 ==> a.macFilters == Walk(old(a.macFilters), MacOkStep)
    ensures retval != 0 ==> a.macFilters == Walk(old(a.macFilters), MacRejectStep(devAddr))
  {
    if retval != 0 {
      MacAddReject(a, devAddr);
    } else {
      MacAddOk(a);
    }
  }

  /**
   * The GET_VF_RESOURCES completion as far as the adapter's counts and lists
   * go: the PF's queue counts, validated; every VLAN filter re-added when V1
   * VLANs are allowed; the Flow Director filters reactivated.
   */
  method CompleteGetVfResources(a: Adapter, reply: PfReply)
    modifies a`numQueuePairs, a`vsiQueuePairs, a`vlanFilters, a`aqRequired,
             a`fdirFilters, a`fdirActiveFltr, a`rawFdirActiveFltr
    ensures a.numQueuePairs == Min(reply.numQueuePairs, IAVF_MAX_REQ_QUEUES)
    ensures reply.numQueuePairs > IAVF_MAX_REQ_QUEUES ==>
              |a.vsiQueuePairs| == |reply.vsiQueuePairs| &&
              forall i :: 0 <= i < |a.vsiQueuePairs| ==> a.vsiQueuePairs[i] == IAVF_MAX_REQ_QUEUES
    ensures reply.numQueuePairs <= IAVF_MAX_REQ_QUEUES ==> a.vsiQueuePairs == reply.vsiQueuePairs
    ensures var reAdd := a.vlanAllowed && |old(a.vlanFilters)| > 0;
            && a.vlanFilters == (if reAdd then Walk(old(a.vlanFilters), ReAddVlan) else old(a.vlanFilters))
            && a.aqRequired == old(a.aqRequired) + (if reAdd then {AqAddVlanFilter} else {})
                               + (if Count(old(a.fdirFilters), NeedsReAdd) > 0 then {AqAddFdirFilter} else {})
    ensures FdirActivated(old(a.fdirFilters), old(a.fdirActiveFltr), old(a.rawFdirActiveFltr),
                          a.fdirFilters, a.fdirActiveFltr, a.rawFdirActiveFltr)
  {
    a.numQueuePairs := reply.numQueuePairs;
    a.vsiQueuePairs := reply.vsiQueuePairs;
    ValidateNumQueues(a);
    var vlans, aq := ReAddedVlans(a.vlanAllowed, a.vlanFilters, a.aqRequired);
    a.vlanFilters := vlans;
    a.fdirFilters, a.fdirActiveFltr, a.rawFdirActiveFltr, a.aqRequired :=
      ActivatedFdir(a.fdirFilters, a.fdirActiveFltr, a.rawFdirActiveFltr, aq);
  }

  /**
   * The re-add of every VLAN filter over virtchnl when V1 VLANs are allowed
   * and the list is not empty, with IAVF_FLAG_AQ_ADD_VLAN_FILTER raised.
   */
  method ReAddedVlans(vlanAllowed: bool, l: seq<VlanFilter>, aq0: set<AqFlag>)
    returns (vlans: seq<VlanFilter>, aq: set<AqFlag>)
    ensures vlanAllowed && |l| > 0 ==> vlans == Walk(l, ReAddVlan) && aq == aq0 + {AqAddVlanFilter}
    ensures !(vlanAllowed && |l| > 0) ==> vlans == l && aq == aq0
  {
    vlans, aq := l, aq0;
    if vlanAllowed && |l| > 0 {
      vlans := WalkEntries(l, ReAddVlan);
      aq := aq + {AqAddVlanFilter};
    }
  }

  /**
   * The step the ADD_FDIR_FILTER completion applies in effect: the PF's
   * answer on success; on an error every ADD_PENDING filter is freed.
   */
  function AddFdirAnswer(retval: int, reply: PfReply): FdirFilter -> seq<FdirFilter>
  {
    if retval == 0 then AddDoneStep(reply.fdirSuccess, reply.flowId) else AddDoneStep(false, 0)
  }

  /**
   * A second walk whose step keeps every entry the first walk left changes
   * neither the list nor the counters.
   */
  lemma SecondPassIdle(l: seq<FdirFilter>, step: FdirFilter -> seq<FdirFilter>)
    requires forall x :: x in l ==> step(x) == [x]
    ensures Walk(l, step) == l && Freed(l, step, false) == 0 && Freed(l, step, true) == 0
  {
    WalkIdentity(l, step);
    IdentityFreesNone(l, step, false);
    IdentityFreesNone(l, step, true);
  }

  /**
   * The error pass and then the success pass of a Flow Director completion
   * over the list and counters: `errStep` runs only on an error reply, after
   * which `okStep` finds nothing left to change.
   */
  method AnsweredFdir(l0: seq<FdirFilter>, active0: u16, raw0: u16, isErr: bool,
                      errStep: FdirFilter -> seq<FdirFilter>, okStep: FdirFilter -> seq<FdirFilter>)
    returns (l: seq<FdirFilter>, active: u16, raw: u16)
    requires isErr ==> forall x :: x in Walk(l0, errStep) ==> okStep(x) == [x]
    ensures FdirWalked(l0, active0, raw0, if isErr then errStep else okStep, l, active, raw)
  {
    l, active, raw := l0, active0, raw0;
    if isErr {
      l, active, raw := WalkFdirList(l, errStep, active, raw);
      SecondPassIdle(l, okStep);
    }
    l, active, raw := WalkFdirList(l, okStep, active, raw);
  }

  /**
   * The ADD_FDIR_FILTER completion: an error reply frees every ADD_PENDING
   * filter, after which the success pass finds none left; the counters drop
   * by the filters freed.
   */
  method CompleteAddFdir(a: Adapter, retval: int, reply: PfReply)
    modifies a`fdirFilters, a`fdirActiveFltr, a`rawFdirActiveFltr
    ensures FdirWalked(old(a.fdirFilters), old(a.fdirActiveFltr), old(a.rawFdirActiveFltr), AddFdirAnswer(retval, reply),
                       a.fdirFilters, a.fdirActiveFltr, a.rawFdirActiveFltr)
  {
    FdirAddDoneOutcome(a.fdirFilters, false, 0);
    a.fdirFilters, a.fdirActiveFltr, a.rawFdirActiveFltr :=
      AnsweredFdir(a.fdirFilters, a.fdirActiveFltr, a.rawFdirActiveFltr, retval != 0,
                   AddDoneStep(false, 0), AddDoneStep(reply.fdirSuccess, reply.flowId));
  }

  /**
   * The DEL_FDIR_FILTER completion: an error reply returns pending deletes
   * and disables to ACTIVE, freeing nothing; otherwise the PF's answer
   * decides, and the counters drop by the filters freed.
   */
  method CompleteDelFdir(a: Adapter, retval: int, reply: PfReply)
    modifies a`fdirFilters, a`fdirActiveFltr, a`rawFdirActiveFltr
    ensures FdirWalked(old(a.fdirFilters), old(a.fdirActiveFltr), old(a.rawFdirActiveFltr),
                       DelDoneStep(retval == 0 && reply.fdirDelOk), a.fdirFilters, a.fdirActiveFltr, a.rawFdirActiveFltr)
  {
    FdirDelDoneOutcome(a.fdirFilters, false);
    a.fdirFilters, a.fdirActiveFltr, a.rawFdirActiveFltr :=
      AnsweredFdir(a.fdirFilters, a.fdirActiveFltr, a.rawFdirActiveFltr, retval != 0,
                   DelDoneStep(false), DelDoneStep(reply.fdirDelOk));
  }

  /**
   * The ADD_VLAN_V2 completion: an error reply frees the IS_NEW filters and
   * counts them off num_vlan_filters; the success pass then marks the
   * remaining IS_NEW filters (none, after an error) ACTIVE.
   */
  method CompleteAddVlanV2(a: Adapter, retval: int)
    modifies a`vlanFilters, a`numVlanFilters
    ensures retval == 0 ==> a.vlanFilters == Walk(old(a.vlanFilters), MarkActive)
    ensures retval != 0 ==> a.vlanFilters == Walk(old(a.vlanFilters), DropIsNew)
    ensures a.numVlanFilters == old(a.numVlanFilters) - (if retval != 0 then Count(old(a.vlanFilters), IsVlanIsNew) else 0)
  {
    if retval != 0 {
      VlanAddReject(a);
      VlanAddV2Outcome(old(a.vlanFilters));
      WalkIdentity(a.vlanFilters, MarkActive);
    }
    VlanAddV2Done(a);
  }
}
