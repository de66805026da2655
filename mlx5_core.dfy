// Helpers of drivers/net/ethernet/mellanox/mlx5/core/mlx5_core.h: the
// overflow-checked command length, EC VF vport ranges, the EQ capability
// choice and the printk level clamp. Device capabilities are a record of
// the values the MLX5_CAP_* accessors read.

module Mlx5Core {
  import opened Ints
  import opened Errno

  const SIZE_LIMIT: int := 0x1_0000_0000_0000_0000
  /** LOGLEVEL_EMERG, LOGLEVEL_DEBUG and LOGLEVEL_DEFAULT of linux/kern_levels.h. */
  const LOGLEVEL_EMERG: int := 0
  const LOGLEVEL_DEBUG: int := 7
  const LOGLEVEL_DEFAULT: int := -1

  /** The capability values the helpers read. */
  datatype Caps = Caps(
    isEcpf: bool,
    ecVfVportBase: u16,
    maxEcVfs: u16,
    maxNumEqs24b: nat,
    maxNumEqs: nat,
    logMaxEq: nat)

  /** mlx5_printk: a level outside [LOGLEVEL_EMERG, LOGLEVEL_DEBUG] becomes LOGLEVEL_DEFAULT. */
  function PrintkLevel(level: int): (r: int)
    ensures LOGLEVEL_EMERG <= level <= LOGLEVEL_DEBUG ==> r == level
    ensures !(LOGLEVEL_EMERG <= level <= LOGLEVEL_DEBUG) ==> r == LOGLEVEL_DEFAULT
    ensures r == LOGLEVEL_DEFAULT || LOGLEVEL_EMERG <= r <= LOGLEVEL_DEBUG
  {
    if level < LOGLEVEL_EMERG || level > LOGLEVEL_DEBUG then LOGLEVEL_DEFAULT else level
  }

  /** The clamp changes nothing the second time. */
  lemma PrintkLevelIdempotent(level: int)
    ensures PrintkLevel(PrintkLevel(level)) == PrintkLevel(level)
  {
  }

  /**
   * mlx5_flexible_inlen: fixed + item_size * num_items for size_t inputs,
   * or -ENOMEM when an input exceeds INT_MAX or the int product or sum
   * overflows.
   */
  function FlexibleInlen(fixed: nat, itemSize: nat, numItems: nat): (r: int)
    requires fixed < SIZE_LIMIT && itemSize < SIZE_LIMIT && numItems < SIZE_LIMIT
    ensures r == -ENOMEM || 0 <= r <= INT_MAX
    ensures r != -ENOMEM <==> (fixed <= INT_MAX && itemSize <= INT_MAX && numItems <= INT_MAX
                               && itemSize * numItems <= INT_MAX && fixed + itemSize * numItems <= INT_MAX)
    ensures r != -ENOMEM ==> r == fixed + itemSize * numItems
  {
    if fixed > INT_MAX || itemSize > INT_MAX || numItems > INT_MAX then -ENOMEM
    else if MulOverflows(itemSize, numItems) then -ENOMEM
    else if AddOverflows(fixed, itemSize * numItems) then -ENOMEM
    else fixed + itemSize * numItems
  }

  /** check_mul_overflow on two ints: the exact product leaves the int range. */
  predicate MulOverflows(a: int, b: int)
  {
    a * b > INT_MAX || a * b < -INT_MAX - 1
  }

  /** check_add_overflow on two ints. */
  predicate AddOverflows(a: int, b: int)
  {
    a + b > INT_MAX || a + b < -INT_MAX - 1
  }

  /** A length the helper accepts grows with each input: more items never make a rejected length acceptable. */
  lemma {:induction false} FlexibleInlenMonotone(fixed: nat, itemSize: nat, numItems: nat, more: nat)
    requires fixed < SIZE_LIMIT && itemSize < SIZE_LIMIT && numItems + more < SIZE_LIMIT
    requires FlexibleInlen(fixed, itemSize, numItems + more) != -ENOMEM
    ensures FlexibleInlen(fixed, itemSize, numItems) != -ENOMEM
    ensures FlexibleInlen(fixed, itemSize, numItems) <= FlexibleInlen(fixed, itemSize, numItems + more)
  {
    assert itemSize * (numItems + more) == itemSize * numItems + itemSize * more;
    assert itemSize * more >= 0;
  }

  /** mlx5_core_ec_sriov_enabled: an ECPF with a nonzero EC VF vport base. */
  function EcSriovEnabled(c: Caps): (r: bool)
    ensures r ==> c.isEcpf && 1 <= c.ecVfVportBase
    ensures !c.isEcpf || c.ecVfVportBase == 0 ==> !r
    ensures r ==> VportToFuncId(c, c.ecVfVportBase, true) == 1
  {
    c.isEcpf && c.ecVfVportBase != 0
  }

  /** mlx5_core_is_ec_vf_vport */
  function IsEcVfVport(c: Caps, vport: u16): (r: bool)
    ensures r <==> EcSriovEnabled(c) && c.ecVfVportBase <= vport < c.ecVfVportBase + c.maxEcVfs
  {
    var baseVport: int := c.ecVfVportBase;
    var maxVport: int := baseVport + c.maxEcVfs;
    if !EcSriovEnabled(c) then false
    else vport >= baseVport && vport < maxVport
  }

  /** mlx5_vport_to_func_id: EC VF vports count from 1 above the base; others map to themselves. */
  function VportToFuncId(c: Caps, vport: u16, ecVfFunc: bool): (r: int)
    ensures ecVfFunc ==> r + c.ecVfVportBase - 1 == vport
    ensures !ecVfFunc ==> r == vport
  {
    if ecVfFunc then vport - c.ecVfVportBase + 1 else vport
  }

  /** The EC VF vports are numbered 1 to max_ec_vfs, one function id each. */
  lemma EcVfFuncIds(c: Caps, v1: u16, v2: u16)
    requires IsEcVfVport(c, v1) && IsEcVfVport(c, v2)
    ensures 1 <= VportToFuncId(c, v1, true) <= c.maxEcVfs
    ensures VportToFuncId(c, v1, true) == VportToFuncId(c, v2, true) ==> v1 == v2
  {
  }

  /**
   * mlx5_max_eq_cap_get: max_num_eqs_24b when nonzero, else max_num_eqs
   * when nonzero, else 1 << log_max_eq.
   */
  function MaxEqCap(c: Caps): (r: nat)
    ensures c.maxNumEqs24b != 0 ==> r == c.maxNumEqs24b
    ensures c.maxNumEqs24b == 0 && c.maxNumEqs != 0 ==> r == c.maxNumEqs
    ensures c.maxNumEqs24b == 0 && c.maxNumEqs == 0 ==> r == Pow2(c.logMaxEq)
    ensures r >= 1
  {
    if c.maxNumEqs24b != 0 then c.maxNumEqs24b
    else if c.maxNumEqs != 0 then c.maxNumEqs
    else Pow2(c.logMaxEq)
  }
}
