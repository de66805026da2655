// The iavf adapter of drivers/net/ethernet/intel/iavf/iavf.h: the ring and
// interrupt-throttle macros, the driver state names, the state-change
// helper and the Flow Director filter counters, together with the parts of
// struct iavf_adapter that the virtual-channel code updates.

module IavfH {
  import opened Ints

  const IAVF_MAX_AQ_BUF_SIZE: nat := 4096
  const IAVF_MAX_REQ_QUEUES: nat := 16
  const IAVF_MAX_FDIR_FILTERS: nat := 128

  // ---------------------------------------------------------------------
  // Ring and ITR macros
  // ---------------------------------------------------------------------

  /**
   * IAVF_DESC_UNUSED: the descriptors of a ring of `count` entries that
   * software may still fill, one slot being kept empty to tell a full ring
   * from an empty one. For in-range indices this is the distance from
   * next_to_use forward to next_to_clean, less one, modulo count.
   */
  function DescUnused(count: int, ntc: int, ntu: int): (r: int)
    ensures (0 <= ntc < count && 0 <= ntu < count) ==> 0 <= r <= count - 1
    ensures (0 <= ntc < count && 0 <= ntu < count) ==> r == (ntc - ntu - 1) % count
    ensures ntc == ntu ==> r == count - 1
  {
    var r := (if ntc > ntu then 0 else count) + ntc - ntu - 1;
    if 0 <= ntc < count && 0 <= ntu < count then
      if ntc > ntu then
        DivModUnique(ntc - ntu - 1, count, 0, r);
        r
      else
        DivModUnique(ntc - ntu - 1, count, -1, r);
        r
    else r
  }

  /**
   * EITR_INTS_PER_SEC_TO_REG: 8 for 0, else 10^9 / (rate * 256) truncated;
   * EITR_REG_TO_INTS_PER_SEC is the same function.
   */
  function EitrIntsPerSecToReg(eitr: nat): (r: nat)
    ensures eitr == 0 ==> r == 8
    ensures eitr != 0 ==> r * (eitr * 256) <= 1_000_000_000 < (r + 1) * (eitr * 256)
  {
    if eitr != 0 then 1_000_000_000 / (eitr * 256) else 8
  }

  // ---------------------------------------------------------------------
  // Driver state
  // ---------------------------------------------------------------------

  /** The names of enum iavf_state_t, indexed by enumerator value. */
  const STATE_NAMES: seq<string> := [
    "__IAVF_STARTUP", "__IAVF_REMOVE", "__IAVF_INIT_VERSION_CHECK",
    "__IAVF_INIT_GET_RESOURCES", "__IAVF_INIT_EXTENDED_CAPS",
    "__IAVF_INIT_CONFIG_ADAPTER", "__IAVF_INIT_SW", "__IAVF_INIT_FAILED",
    "__IAVF_RESETTING", "__IAVF_COMM_FAILED", "__IAVF_DOWN",
    "__IAVF_DOWN_PENDING", "__IAVF_TESTING", "__IAVF_RUNNING"]

  const IAVF_RUNNING: int := 13
  const UNKNOWN_STATE_NAME: string := "__IAVF_UNKNOWN_STATE"

  /** iavf_state_str: the enumerator's own name, or the unknown-state name. */
  function StateStr(state: int): (s: string)
    ensures !(0 <= state < |STATE_NAMES|) ==> s == UNKNOWN_STATE_NAME
  {
    if 0 <= state < |STATE_NAMES| then STATE_NAMES[state] else UNKNOWN_STATE_NAME
  }

  /** Different states have different names, and no state is named as unknown. */
  lemma StateStrInjective(a: int, b: int)
    ensures (0 <= a < |STATE_NAMES| && 0 <= b < |STATE_NAMES| && a != b) ==> StateStr(a) != StateStr(b)
    ensures 0 <= a < |STATE_NAMES| ==> StateStr(a) != UNKNOWN_STATE_NAME
  {
    if 0 <= a < |STATE_NAMES| && 0 <= b < |STATE_NAMES| && a != b {
      NamesDistinct(a, b);
    }
  }

  lemma NamesDistinct(a: nat, b: nat)
    requires a < |STATE_NAMES| && b < |STATE_NAMES| && a != b
    ensures STATE_NAMES[a] != STATE_NAMES[b]
  {
    var x := STATE_NAMES[a];
    var y := STATE_NAMES[b];
    assert |x| != |y| || x[7] != y[7] || x[12] != y[12] || x[|x| - 1] != y[|y| - 1] || x[|x| - 2] != y[|y| - 2];
  }

  // ---------------------------------------------------------------------
  // Virtual-channel vocabulary used by the adapter
  // ---------------------------------------------------------------------

  /** The virtchnl opcodes the modelled request builders and completions use. */
  datatype VirtchnlOp =
    | OpUnknown | OpVersion | OpGetVfResources | OpEnableQueues
    | OpAddEthAddr | OpDelEthAddr | OpAddVlan | OpDelVlan
    | OpConfigPromiscuousMode | OpGetStats | OpEvent
    | OpAddFdirFilter | OpDelFdirFilter | OpAddVlanV2 | OpDelVlanV2
    | OpConfigIrqMap | OpGetSupportedRxdids | Op1588PtpGetCaps
    | OpOther(code: nat)

  /** The IAVF_FLAG_AQ_* bits of aq_required that the model touches. */
  datatype AqFlag =
    | AqEnableQueues | AqAddMacFilter | AqAddVlanFilter | AqDelMacFilter
    | AqDelVlanFilter | AqConfigurePromiscMode | AqAddFdirFilter | AqRequestStats

  /** struct iavf_mac_filter (the address as a 48-bit number). */
  datatype MacFilter = MacFilter(
    macaddr: nat, isNewMac: bool, remove: bool, add: bool, isPrimary: bool, addHandled: bool)

  /** enum iavf_vlan_state_t. */
  datatype VlanState = VlanInvalid | VlanAdd | VlanIsNew | VlanActive | VlanDisable | VlanInactive | VlanRemove

  /** struct iavf_vlan_filter. */
  datatype VlanFilter = VlanFilter(vid: u16, tpid: u16, state: VlanState)

  /** enum iavf_fdir_fltr_state_t. */
  datatype FdirState =
    | FdirAddRequest | FdirAddPending | FdirDelRequest | FdirDelPending
    | FdirDisRequest | FdirDisPending | FdirInactive | FdirActive

  /** struct iavf_fdir_fltr: its location, whether it is a raw filter, its state and flow id. */
  datatype FdirFilter = FdirFilter(loc: nat, isRaw: bool, state: FdirState, flowId: nat)

  // ---------------------------------------------------------------------
  // Flow Director counters
  // ---------------------------------------------------------------------

  /** A u16 counter increment and decrement, with C's wrap-around. */
  function CountInc(x: u16): (r: u16)
    ensures x < U16_LIMIT - 1 ==> r == x + 1
    ensures x == U16_LIMIT - 1 ==> r == 0
  {
    Wrap16(x + 1)
  }

  function CountDec(x: u16): (r: u16)
    ensures x > 0 ==> r == x - 1
    ensures x == 0 ==> r == U16_LIMIT - 1
  {
    Wrap16(x - 1)
  }

  /** Decrementing undoes incrementing, wrap-around included. */
  lemma CountDecInc(x: u16)
    ensures CountDec(CountInc(x)) == x
    ensures CountInc(CountDec(x)) == x
  {
  }

  /** The state of struct iavf_adapter that the modelled code reads and writes. */
  class Adapter {
    var state: int
    var lastState: int
    var fdirActiveFltr: u16
    var rawFdirActiveFltr: u16

    var currentOp: VirtchnlOp
    var aqRequired: set<AqFlag>
    var macFilters: seq<MacFilter>
    var vlanFilters: seq<VlanFilter>
    var numVlanFilters: int
    var fdirFilters: seq<FdirFilter>

    // Negotiated capabilities: VLAN_ALLOWED, VLAN_V2_ALLOWED, the V2
    // filtering support bits and vlan_v2_caps.filtering.max_filters.
    var vlanAllowed: bool
    var vlanV2Allowed: bool
    var v2FilterOuter: bool
    var v2FilterInner: bool
    var maxVlanFilters: u16

    // IFF_PROMISC and IFF_ALLMULTI of current_netdev_promisc_flags.
    var curPromisc: bool
    var curAllmulti: bool

    // vf_res->num_queue_pairs and each vsi_res[i].num_queue_pairs.
    var numQueuePairs: int
    var vsiQueuePairs: seq<int>

    // pf_version.
    var pfMajor: nat
    var pfMinor: nat

    constructor()
      ensures state == 0 && lastState == 0 && currentOp == OpUnknown && aqRequired == {}
      ensures macFilters == [] && vlanFilters == [] && fdirFilters == [] && numVlanFilters == 0
      ensures fdirActiveFltr == 0 && rawFdirActiveFltr == 0
    {
      state := 0;
      lastState := 0;
      fdirActiveFltr := 0;
      rawFdirActiveFltr := 0;
      currentOp := OpUnknown;
      aqRequired := {};
      macFilters := [];
      vlanFilters := [];
      numVlanFilters := 0;
      fdirFilters := [];
      vlanAllowed := false;
      vlanV2Allowed := false;
      v2FilterOuter := false;
      v2FilterInner := false;
      maxVlanFilters := 0;
      curPromisc := false;
      curAllmulti := false;
      numQueuePairs := 0;
      vsiQueuePairs := [];
      pfMajor := 0;
      pfMinor := 0;
    }

    /** VLAN_FILTERING_ALLOWED: V1 VLAN offload, or V2 with outer or inner filtering. */
    predicate VlanFilteringAllowed(): (r: bool)
      reads this
      ensures vlanAllowed ==> r
      ensures r && !vlanAllowed ==> vlanV2Allowed && (v2FilterOuter || v2FilterInner)
    {
      vlanAllowed || (vlanV2Allowed && (v2FilterOuter || v2FilterInner))
    }

    /** iavf_fdir_max_reached. */
    predicate FdirMaxReached(): (r: bool)
      reads this
      ensures r <==> MaxReached(fdirActiveFltr, rawFdirActiveFltr)
    {
      fdirActiveFltr + rawFdirActiveFltr >= IAVF_MAX_FDIR_FILTERS
    }

    /** iavf_change_state: last_state records the previous state only on a real change. */
    method ChangeState(s: int)
      modifies this`state, this`lastState
      ensures state == s
      ensures old(state) != s ==> lastState == old(state)
      ensures old(state) == s ==> lastState == old(lastState)
    {
      if state != s {
        lastState := state;
        state := s;
      }
    }

    /** iavf_inc_fdir_active_fltr: only the counter of the filter's kind moves. */
    method IncFdirActiveFltr(isRaw: bool)
      modifies this`fdirActiveFltr, this`rawFdirActiveFltr
      ensures isRaw ==> rawFdirActiveFltr == CountInc(old(rawFdirActiveFltr)) && fdirActiveFltr == old(fdirActiveFltr)
      ensures !isRaw ==> fdirActiveFltr == CountInc(old(fdirActiveFltr)) && rawFdirActiveFltr == old(rawFdirActiveFltr)
    {
      if isRaw {
        rawFdirActiveFltr := CountInc(rawFdirActiveFltr);
      } else {
        fdirActiveFltr := CountInc(fdirActiveFltr);
      }
    }

    /** iavf_dec_fdir_active_fltr. */
    method DecFdirActiveFltr(isRaw: bool)
      modifies this`fdirActiveFltr, this`rawFdirActiveFltr
      ensures isRaw ==> rawFdirActiveFltr == CountDec(old(rawFdirActiveFltr)) && fdirActiveFltr == old(fdirActiveFltr)
      ensures !isRaw ==> fdirActiveFltr == CountDec(old(fdirActiveFltr)) && rawFdirActiveFltr == old(rawFdirActiveFltr)
    {
      if isRaw {
        rawFdirActiveFltr := CountDec(rawFdirActiveFltr);
      } else {
        fdirActiveFltr := CountDec(fdirActiveFltr);
      }
    }
  }

  /** FdirMaxReached on explicit counter values, for reasoning about sequences of updates. */
  predicate MaxReached(active: u16, raw: u16): (r: bool)
    ensures active >= IAVF_MAX_FDIR_FILTERS || raw >= IAVF_MAX_FDIR_FILTERS ==> r
    ensures !r ==> active < IAVF_MAX_FDIR_FILTERS - raw
  {
    active + raw >= IAVF_MAX_FDIR_FILTERS
  }

  /** An increment followed by a decrement of the same kind restores both counters. */
  lemma IncThenDecRestores(active: u16, raw: u16, isRaw: bool)
    ensures var (a1, r1) := if isRaw then (active, CountInc(raw)) else (CountInc(active), raw);
            var (a2, r2) := if isRaw then (a1, CountDec(r1)) else (CountDec(a1), r1);
            a2 == active && r2 == raw && (MaxReached(a2, r2) <==> MaxReached(active, raw))
  {
    CountDecInc(active);
    CountDecInc(raw);
  }
}
