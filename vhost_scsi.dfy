// vhost-scsi command engine: request classification, the per-queue
// in-flight epochs and command-tag pool, the event queue, LUN encodings and
// task-management handling of drivers/vhost/scsi.c.

module VhostScsi {
  import opened Errno
  import opened Wrappers
  import opened Ints

  const MAX_TARGET: nat := 256
  const MAX_EVENT: nat := 128
  const MAX_CDB_SIZE: nat := 32
  /** Packets handled per kick before yielding (VHOST_SCSI_WEIGHT). */
  const WEIGHT: nat := 256

  // Wire sizes of the packed virtio-scsi headers (virtio 1.1, section 5.6.6).
  const REQ_SIZE: nat := 51      // virtio_scsi_cmd_req
  const REQ_PI_SIZE: nat := 59   // virtio_scsi_cmd_req_pi
  const RSP_SIZE: nat := 108     // virtio_scsi_cmd_resp
  const EVENT_SIZE: nat := 16    // virtio_scsi_event

  // virtio-scsi and SAM codes.
  const VIRTIO_SCSI_S_SIMPLE: int := 0
  const VIRTIO_SCSI_S_ORDERED: int := 1
  const VIRTIO_SCSI_S_HEAD: int := 2
  const VIRTIO_SCSI_S_ACA: int := 3
  const VIRTIO_SCSI_S_BAD_TARGET: int := 3
  const VIRTIO_SCSI_S_FUNCTION_SUCCEEDED: int := 10
  const VIRTIO_SCSI_S_FUNCTION_REJECTED: int := 11
  const VIRTIO_SCSI_T_TMF_LOGICAL_UNIT_RESET: int := 3
  const VIRTIO_SCSI_T_EVENTS_MISSED: bv32 := 0x8000_0000
  const SAM_STAT_TASK_SET_FULL: int := 0x28
  const TMR_FUNCTION_COMPLETE: int := 0

  // Target-core task attribute tags.
  const TCM_SIMPLE_TAG: int := 0x20
  const TCM_HEAD_TAG: int := 0x21
  const TCM_ORDERED_TAG: int := 0x22
  const TCM_ACA_TAG: int := 0x24

  // ---------------------------------------------------------------------
  // Pure request classification
  // ---------------------------------------------------------------------

  datatype Direction = DmaNone | DmaToDevice | DmaFromDevice

  /** vhost_scsi_chk_size: the response buffer is checked before the request buffer. */
  function ChkSize(inSize: nat, rspSize: nat, outSize: nat, reqSize: nat): (ret: int)
    ensures ret == -EINVAL <==> inSize < rspSize
    ensures ret == -EIO <==> rspSize <= inSize && outSize < reqSize
    ensures ret == 0 <==> rspSize <= inSize && reqSize <= outSize
  {
    if inSize < rspSize then -EINVAL
    else if outSize < reqSize then -EIO
    else 0
  }

  /**
   * The data direction and expected length of the direction block of
   * vhost_scsi_handle_vq; the length is stored in a u32.
   */
  function DataDirection(outSize: nat, reqSize: nat, inSize: nat, rspSize: nat): (r: (Direction, u32))
  {
    if outSize > reqSize then (DmaToDevice, Wrap32(outSize - reqSize))
    else if inSize > rspSize then (DmaFromDevice, Wrap32(inSize - rspSize))
    else (DmaNone, 0)
  }

  /** The direction comes from the sizes alone, writes taking priority over reads. */
  lemma DataDirectionCases(outSize: nat, reqSize: nat, inSize: nat, rspSize: nat)
    ensures var (dir, len) := DataDirection(outSize, reqSize, inSize, rspSize);
      && (dir == DmaToDevice <==> outSize > reqSize)
      && (dir == DmaFromDevice <==> outSize <= reqSize && inSize > rspSize)
      && (dir == DmaNone <==> outSize <= reqSize && inSize <= rspSize)
      && (dir == DmaNone ==> len == 0)
      && (dir == DmaToDevice && outSize - reqSize < U32_LIMIT ==> len == outSize - reqSize)
      && (dir == DmaFromDevice && inSize - rspSize < U32_LIMIT ==> len == inSize - rspSize)
  {
  }

  /** Outcome of the T10-PI block: protection bytes and the data-only length. */
  datatype PiSplit = PiSplit(protBytes: u32, expDataLen: u32)

  /**
   * The T10-PI block of vhost_scsi_handle_vq: a nonzero pi_bytesout must come
   * with a write, otherwise a nonzero pi_bytesin with a read; the protection
   * bytes are then taken out of the (u32) expected length.
   */
  function PiAdjust(t10Pi: bool, dir: Direction, expDataLen: u32, piBytesOut: u32, piBytesIn: u32): (r: Result<PiSplit>)
  {
    if !t10Pi then Ok(PiSplit(0, expDataLen))
    else if piBytesOut != 0 then
      if dir != DmaToDevice then Err(-EIO) else Ok(PiSplit(piBytesOut, Wrap32(expDataLen - piBytesOut)))
    else if piBytesIn != 0 then
      if dir != DmaFromDevice then Err(-EIO) else Ok(PiSplit(piBytesIn, Wrap32(expDataLen - piBytesIn)))
    else Ok(PiSplit(0, expDataLen))
  }

  /** The length handed to the target core, exp_data_len + prot_bytes in u32. */
  function SubmittedLength(s: PiSplit): u32 { Wrap32(s.expDataLen + s.protBytes) }

  /**
   * Protection bytes must agree with the direction, and the submitted length
   * is always the whole payload: splitting off prot_bytes never changes what
   * is submitted, even when the u32 subtraction wraps.
   */
  lemma PiAdjustSpec(t10Pi: bool, dir: Direction, expDataLen: u32, piBytesOut: u32, piBytesIn: u32)
    ensures var r := PiAdjust(t10Pi, dir, expDataLen, piBytesOut, piBytesIn);
      && (r.Err? <==> t10Pi && ((piBytesOut != 0 && dir != DmaToDevice)
                                || (piBytesOut == 0 && piBytesIn != 0 && dir != DmaFromDevice)))
      && (r.Err? ==> r.code == -EIO)
      && (r.Ok? ==> SubmittedLength(r.value) == expDataLen)
      && (r.Ok? && r.value.protBytes != 0 ==> t10Pi && (dir == DmaToDevice || dir == DmaFromDevice))
      && (r.Ok? && r.value.protBytes <= expDataLen ==> r.value.expDataLen == expDataLen - r.value.protBytes)
  {
    var r := PiAdjust(t10Pi, dir, expDataLen, piBytesOut, piBytesIn);
    if r.Ok? && r.value.protBytes != 0 {
      var p := r.value.protBytes;
      var d := Wrap32(expDataLen - p);
      assert d == (expDataLen - p) % U32_LIMIT;
      ModAddBack(expDataLen, p);
    }
  }

  /** ((e - p) mod 2^32 + p) mod 2^32 == e for any u32 e. */
  lemma ModAddBack(e: u32, p: u32)
    ensures ((e - p) % U32_LIMIT + p) % U32_LIMIT == e
  {
    if e >= p {
      assert (e - p) % U32_LIMIT == e - p;
    } else {
      assert (e - p) % U32_LIMIT == e - p + U32_LIMIT;
      assert (e - p + U32_LIMIT + p) % U32_LIMIT == e;
    }
  }

  /** vhost_scsi_to_tcm_attr: the four virtio task attributes, SIMPLE otherwise. */
  function ToTcmAttr(attr: int): (tag: int)
    ensures attr == VIRTIO_SCSI_S_ORDERED <==> tag == TCM_ORDERED_TAG
    ensures attr == VIRTIO_SCSI_S_HEAD <==> tag == TCM_HEAD_TAG
    ensures attr == VIRTIO_SCSI_S_ACA <==> tag == TCM_ACA_TAG
    ensures tag in {TCM_SIMPLE_TAG, TCM_ORDERED_TAG, TCM_HEAD_TAG, TCM_ACA_TAG}
  {
    if attr == VIRTIO_SCSI_S_SIMPLE then TCM_SIMPLE_TAG
    else if attr == VIRTIO_SCSI_S_ORDERED then TCM_ORDERED_TAG
    else if attr == VIRTIO_SCSI_S_HEAD then TCM_HEAD_TAG
    else if attr == VIRTIO_SCSI_S_ACA then TCM_ACA_TAG
    else TCM_SIMPLE_TAG
  }

  // ---------------------------------------------------------------------
  // LUN encodings
  // ---------------------------------------------------------------------

  /** Sets bit 6 of a byte (the `| 0x40` of vhost_scsi_send_evt). */
  function Or40(b: u8): (r: u8)
    ensures r % 0x40 == b % 0x40 && (r / 0x40) % 2 == 1
    ensures (b / 0x40) % 2 == 0 ==> r == b + 0x40
  {
    if (b / 0x40) % 2 == 1 then b else b + 0x40
  }

  /** The 8-byte LUN field of a request or an event (lun[8] in virtio_scsi.h). */
  type Lun = s: seq<u8> | |s| == 8 witness [0, 0, 0, 0, 0, 0, 0, 0]

  /** vhost_buf_to_lun: ((lun[2] << 8) | lun[3]) & 0x3FFF. */
  function BufToLun(lun: Lun): (unit: u16)
    ensures unit < 0x4000
  {
    ((lun[2] as int) * 0x100 + lun[3]) % 0x4000
  }

  /**
   * The 8-byte LUN field of an event (vhost_scsi_send_evt): byte 0 is 1,
   * byte 1 the TPG tag, bytes 2-3 the flat-space unit; with no tpg/lun the
   * field stays zeroed.
   */
  function EventLun(target: Option<(u16, u64)>): (lun: Lun)
    ensures target.None? ==> lun == [0, 0, 0, 0, 0, 0, 0, 0]
  {
    match target
    case None => [0, 0, 0, 0, 0, 0, 0, 0]
    case Some((tpgt, unpacked)) =>
      [1, Wrap8(tpgt),
       if unpacked >= 256 then Or40(Wrap8(unpacked / 0x100)) else 0,
       unpacked % 0x100, 0, 0, 0, 0]
  }

  /**
   * Decoding an event's LUN field gives the unit back modulo the 14-bit
   * flat-space range; in particular every unit below 0x4000 round-trips.
   */
  lemma EventLunRoundTrip(tpgt: u16, unit: u64)
    ensures var lun := EventLun(Some((tpgt, unit)));
      lun[0] == 1 && lun[1] == tpgt % 0x100 && lun[3] == unit % 0x100
      && (unit < 256 ==> lun[2] == 0)
      && BufToLun(lun) == unit % 0x4000
  {
    var lun := EventLun(Some((tpgt, unit)));
    if unit >= 256 {
      var h := unit / 0x100;
      var hi := Wrap8(h);
      assert lun[2] == Or40(hi) && lun[3] == unit % 0x100;
      FlatUnit(lun[2], lun[3]);
      ByteLow6(h);
      UnitSplit(unit);
    }
  }

  /** Only the low six bits of the high byte reach the unit. */
  lemma FlatUnit(a: u8, b: u8)
    ensures ((a as int) * 0x100 + b) % 0x4000 == (a % 0x40) * 0x100 + b
  {
    DivModUnique((a as int) * 0x100 + b, 0x4000, a / 0x40, (a % 0x40) * 0x100 + b);
  }

  lemma ByteLow6(h: nat)
    ensures (h % 0x100) % 0x40 == h % 0x40
  {
    DivModUnique(h % 0x100, 0x40, (h % 0x100) / 0x40, (h % 0x100) % 0x40);
    DivModUnique(h, 0x40, (h / 0x100) * 4 + (h % 0x100) / 0x40, (h % 0x100) % 0x40);
  }

  lemma UnitSplit(unit: nat)
    ensures unit % 0x4000 == ((unit / 0x100) % 0x40) * 0x100 + unit % 0x100
  {
    var h := unit / 0x100;
    DivModUnique(unit, 0x4000, h / 0x40, (h % 0x40) * 0x100 + unit % 0x100);
  }

  /** vhost_scsi_get_req: a request must address LUN byte 0 == 1 and a present target. */
  function GetReq(copyOk: bool, lun: Lun, tpgs: map<u8, Tpg>): (r: Result<Tpg>)
    ensures r.Ok? <==> copyOk && lun[0] == 1 && lun[1] in tpgs
    ensures r.Ok? ==> r.value == tpgs[lun[1]]
    ensures r.Err? ==> r.code == -EIO
  {
    if !copyOk then Err(-EIO)
    else if lun[0] != 1 then Err(-EIO)
    else if lun[1] !in tpgs then Err(-EIO)
    else Ok(tpgs[lun[1]])
  }

  /** What the loop of vhost_scsi_handle_vq does with each return code. */
  datatype ErrAction = EndPass | ReplyBadTarget | ReplyStatus(status: int) | NoReply

  /** The error block at the end of the request loop. */
  function ErrorAction(ret: int): (a: ErrAction)
    ensures a == EndPass <==> ret == -ENXIO
    ensures a == ReplyBadTarget <==> ret == -EIO
    ensures a.ReplyStatus? <==> ret == -ENOMEM
    ensures a.ReplyStatus? ==> a.status == SAM_STAT_TASK_SET_FULL
  {
    if ret == -ENXIO then EndPass
    else if ret == -EIO then ReplyBadTarget
    else if ret == -ENOMEM then ReplyStatus(SAM_STAT_TASK_SET_FULL)
    else NoReply
  }

  // ---------------------------------------------------------------------
  // One request, as the loop of vhost_scsi_handle_vq sees it
  // ---------------------------------------------------------------------

  /** A target portal group as seen from a virtqueue. */
  datatype Tpg = Tpg(tpgt: u16, hasNexus: bool, hasSession: bool)

  /** What vhost_get_vq_desc produced. */
  datatype Desc =
    | DescError                          // head < 0
    | DescEmpty(notifyRaced: bool)       // head == vq->num; enable_notify found new buffers
    | DescAvail(outSize: nat, inSize: nat, req: Request)

  /** The guest request header and what copying and mapping it yields. */
  datatype Request = Request(
    copyOk: bool,           // copy_from_iter_full of the header succeeded
    lun: Lun,
    taskAttr: u8,
    piBytesOut: u32,
    piBytesIn: u32,
    cdbSize: nat,           // scsi_command_size(cdb)
    respIovsRet: int,       // vhost_scsi_setup_resp_iovs
    logRet: int,            // vhost_scsi_copy_cmd_log; 0 when there is no dirty log to copy
    mapalRet: int           // vhost_scsi_mapal, when data moves
  )

  /**
   * The code of a pass once a command slot is reserved: the first failure of
   * the response iovecs, the dirty-log copy and (when data moves) the data
   * mapping, or 0 when the command is submitted.
   */
  function AfterSlotRet(r: Request, dir: Direction): int
  {
    if r.respIovsRet != 0 then r.respIovsRet
    else if r.logRet != 0 then r.logRet
    else if dir != DmaNone then r.mapalRet
    else 0
  }

  /** A command handed to the target core. */
  datatype Submission = Submission(dir: Direction, dataLen: u32, protBytes: u32, unit: u16, attr: int)

  /** vhost_scsi_get_desc. */
  function GetDescRet(d: Desc): (ret: int)
    ensures ret == 0 <==> d.DescAvail?
    ensures ret == -EAGAIN <==> d.DescEmpty? && d.notifyRaced
    ensures ret == -ENXIO <==> d.DescError? || (d.DescEmpty? && !d.notifyRaced)
  {
    match d
    case DescError => -ENXIO
    case DescEmpty(raced) => if raced then -EAGAIN else -ENXIO
    case DescAvail(_, _, _) => 0
  }

  /**
   * Everything the loop checks before it reserves a command slot: the
   * descriptor, both buffer sizes, the header, direction and T10-PI, the CDB
   * length and the nexus. On success it yields what will be submitted.
   */
  function Precheck(d: Desc, t10Pi: bool, tpgs: map<u8, Tpg>): (r: Result<Submission>)
    ensures d.DescAvail? && d.inSize < RSP_SIZE ==> r == Err(-EINVAL)
    ensures r.Ok? ==> d.DescAvail? && d.req.lun[0] == 1 && d.req.cdbSize <= MAX_CDB_SIZE
    ensures r.Ok? ==> r.value.unit == BufToLun(d.req.lun) && r.value.attr == ToTcmAttr(d.req.taskAttr)
    ensures r.Err? ==> r.code in {-ENXIO, -EAGAIN, -EINVAL, -EIO}
  {
    var ret := GetDescRet(d);
    if ret != 0 then Err(ret)
    else
      var reqSize := if t10Pi then REQ_PI_SIZE else REQ_SIZE;
      var chk := ChkSize(d.inSize, RSP_SIZE, d.outSize, reqSize);
      if chk != 0 then Err(chk)
      else
        var tpg := GetReq(d.req.copyOk, d.req.lun, tpgs);
        if tpg.Err? then Err(tpg.code)
        else
          var (dir, len) := DataDirection(d.outSize, reqSize, d.inSize, RSP_SIZE);
          var pi := PiAdjust(t10Pi, dir, len, d.req.piBytesOut, d.req.piBytesIn);
          if pi.Err? then Err(-EIO)
          else if d.req.cdbSize > MAX_CDB_SIZE then Err(-EIO)
          else if !tpg.value.hasNexus then Err(-EIO)
          else Ok(Submission(dir, SubmittedLength(pi.value), pi.value.protBytes,
                             BufToLun(d.req.lun), ToTcmAttr(d.req.taskAttr)))
  }

  /** Precheck applied to each descriptor of a pass. */
  function Prechecks(descs: seq<Desc>, t10Pi: bool, tpgs: map<u8, Tpg>): (r: seq<Result<Submission>>)
    ensures |r| == |descs| && forall i :: 0 <= i < |descs| ==> r[i] == Precheck(descs[i], t10Pi, tpgs)
  {
    seq(|descs|, i requires 0 <= i < |descs| => Precheck(descs[i], t10Pi, tpgs))
  }

  /**
   * The response buffer is checked first: a too-small response buffer drops
   * the request silently even when the request buffer is too small as well,
   * while a too-small request buffer alone is answered with BAD_TARGET.
   */
  lemma SizeErrorsDisposition(outSize: nat, inSize: nat, req: Request, t10Pi: bool, tpgs: map<u8, Tpg>)
    ensures var d := DescAvail(outSize, inSize, req);
      var reqSize := if t10Pi then REQ_PI_SIZE else REQ_SIZE;
      && (inSize < RSP_SIZE ==> ErrorAction(Precheck(d, t10Pi, tpgs).code) == NoReply)
      && (inSize >= RSP_SIZE && outSize < reqSize ==> ErrorAction(Precheck(d, t10Pi, tpgs).code) == ReplyBadTarget)
  {
  }

  /** A submitted request always carries its whole payload as computed from the sizes. */
  lemma PrecheckSubmitsPayload(d: Desc, t10Pi: bool, tpgs: map<u8, Tpg>)
    requires Precheck(d, t10Pi, tpgs).Ok?
    ensures var reqSize := if t10Pi then REQ_PI_SIZE else REQ_SIZE;
      var s := Precheck(d, t10Pi, tpgs).value;
      (s.dir, s.dataLen) == DataDirection(d.outSize, reqSize, d.inSize, RSP_SIZE)
      && (s.protBytes != 0 ==> t10Pi && s.dir != DmaNone)
  {
    var reqSize := if t10Pi then REQ_PI_SIZE else REQ_SIZE;
    var (dir, len) := DataDirection(d.outSize, reqSize, d.inSize, RSP_SIZE);
    PiAdjustSpec(t10Pi, dir, len, d.req.piBytesOut, d.req.piBytesIn);
  }

  // ---------------------------------------------------------------------
  // Task management
  // ---------------------------------------------------------------------

  /**
   * vhost_scsi_handle_tmf: only a LOGICAL_UNIT_RESET on a tpg with a nexus and
   * session goes to the target core; every other case, and every failure on
   * the way, is answered FUNCTION_REJECTED at once (Some(code)); None means
   * the request was submitted and the answer comes from TmfRespCode.
   */
  function TmfImmediate(subtype: u32, tpg: Tpg, allocOk: bool, logOk: bool, submitOk: bool): (resp: Option<int>)
    ensures resp.Some? ==> resp.value == VIRTIO_SCSI_S_FUNCTION_REJECTED
    ensures resp.None? <==> subtype == VIRTIO_SCSI_T_TMF_LOGICAL_UNIT_RESET && tpg.hasNexus && tpg.hasSession
                             && allocOk && logOk && submitOk
  {
    if subtype != VIRTIO_SCSI_T_TMF_LOGICAL_UNIT_RESET then Some(VIRTIO_SCSI_S_FUNCTION_REJECTED)
    else if !tpg.hasNexus || !tpg.hasSession then Some(VIRTIO_SCSI_S_FUNCTION_REJECTED)
    else if !allocOk || !logOk || !submitOk then Some(VIRTIO_SCSI_S_FUNCTION_REJECTED)
    else None
  }

  /** vhost_scsi_tmf_resp_work: the reset's outcome as a virtio response code. */
  function TmfRespCode(scsiResp: int): (code: int)
    ensures code == VIRTIO_SCSI_S_FUNCTION_SUCCEEDED <==> scsiResp == TMR_FUNCTION_COMPLETE
    ensures code == VIRTIO_SCSI_S_FUNCTION_SUCCEEDED || code == VIRTIO_SCSI_S_FUNCTION_REJECTED
  {
    if scsiResp == TMR_FUNCTION_COMPLETE then VIRTIO_SCSI_S_FUNCTION_SUCCEEDED
    else VIRTIO_SCSI_S_FUNCTION_REJECTED
  }

  // ---------------------------------------------------------------------
  // In-flight epochs and the command pool of one virtqueue
  // ---------------------------------------------------------------------

  /** One of the two ref-counted in-flight slots of a virtqueue. */
  datatype Inflight = Inflight(count: nat, completed: bool)

  /**
   * A preallocated command slot. sgl, protSgl and log are the preallocated
   * buffers vhost_scsi_get_cmd keeps; sglCount, protSglCount and vqDesc stand
   * for the fields it zeroes.
   */
  datatype Cmd = Cmd(sgl: int, protSgl: int, log: int, mapTag: nat, inflight: nat,
                     sglCount: nat, protSglCount: nat, vqDesc: int)

  /** The slot as vhost_scsi_get_cmd leaves it for tag `tag` on epoch `slot`. */
  function ResetCmd(c: Cmd, tag: nat, slot: nat): (r: Cmd)
    ensures r.sgl == c.sgl && r.protSgl == c.protSgl && r.log == c.log
    ensures r.mapTag == tag && r.inflight == slot
    ensures r.sglCount == 0 && r.protSglCount == 0 && r.vqDesc == 0
  {
    Cmd(c.sgl, c.protSgl, c.log, tag, slot, 0, 0, 0)
  }

  /** 1 when reserved tag t holds a reference on epoch slot s. */
  function HoldsAt(tags: seq<bool>, cmds: seq<Cmd>, t: nat, s: nat): nat
    requires t < |tags| == |cmds|
  {
    if tags[t] && cmds[t].inflight == s then 1 else 0
  }

  /** How many reserved tags hold a reference on epoch slot s. */
  function Holders(tags: seq<bool>, cmds: seq<Cmd>, s: nat): nat
    requires |tags| == |cmds|
    decreases |tags|
  {
    if |tags| == 0 then 0
    else Holders(tags[..|tags| - 1], cmds[..|tags| - 1], s) + HoldsAt(tags, cmds, |tags| - 1, s)
  }

  /** Changing one tag/command pair changes the holder count by exactly that pair's share. */
  lemma {:induction false} HoldersUpdate(tags: seq<bool>, cmds: seq<Cmd>, t: nat, b: bool, c: Cmd, s: nat)
    requires t < |tags| == |cmds|
    ensures Holders(tags[t := b], cmds[t := c], s) + HoldsAt(tags, cmds, t, s)
         == Holders(tags, cmds, s) + (if b && c.inflight == s then 1 else 0)
    decreases |tags|
  {
    var n := |tags|;
    if t == n - 1 {
      assert tags[t := b][..n - 1] == tags[..n - 1];
      assert cmds[t := c][..n - 1] == cmds[..n - 1];
    } else {
      assert tags[t := b][..n - 1] == tags[..n - 1][t := b];
      assert cmds[t := c][..n - 1] == cmds[..n - 1][t := c];
      HoldersUpdate(tags[..n - 1], cmds[..n - 1], t, b, c, s);
    }
  }

  /** With no tag reserved nobody holds a reference. */
  lemma {:induction false} HoldersNoneReserved(tags: seq<bool>, cmds: seq<Cmd>, s: nat)
    requires |tags| == |cmds|
    requires forall t :: 0 <= t < |tags| ==> !tags[t]
    ensures Holders(tags, cmds, s) == 0
    decreases |tags|
  {
    if |tags| > 0 {
      HoldersNoneReserved(tags[..|tags| - 1], cmds[..|tags| - 1], s);
    }
  }

  /** How one pass of the request loop relates its return code and submission to Precheck. */
  predicate StepAgrees(pre: Result<Submission>, d: Desc, ret: int, sub: Option<(nat, Submission)>)
  {
    && (pre.Err? ==> ret == pre.code && sub.None?)
    && (pre.Ok? ==> d.DescAvail? && ret in {0, -ENOMEM, d.req.respIovsRet, d.req.logRet, d.req.mapalRet})
    && (sub.Some? <==> ret == 0 && pre.Ok?)
    && (sub.Some? ==> sub.value.1 == pre.value)
  }

  /** Every submitted command owns a reserved tag, and no two share one. */
  predicate TagsHeld(subs: seq<Option<(nat, Submission)>>, tags: seq<bool>)
  {
    && (forall i :: 0 <= i < |subs| && subs[i].Some? ==> subs[i].value.0 < |tags| && tags[subs[i].value.0])
    && (forall i, j :: 0 <= i < j < |subs| && subs[i].Some? && subs[j].Some? ==> subs[i].value.0 != subs[j].value.0)
  }

  /** No reserved tag was released between the two bitmaps. */
  predicate Grows(before: seq<bool>, after: seq<bool>)
  {
    |before| == |after| && forall t :: 0 <= t < |before| && before[t] ==> after[t]
  }

  lemma GrowsTrans(a: seq<bool>, b: seq<bool>, c: seq<bool>)
    requires Grows(a, b) && Grows(b, c)
    ensures Grows(a, c)
  {
  }

  /** A submission on a newly reserved tag keeps every submission on its own tag. */
  lemma TagsHeldExtend(subs: seq<Option<(nat, Submission)>>, before: seq<bool>, after: seq<bool>,
                       sub: Option<(nat, Submission)>)
    requires TagsHeld(subs, before) && Grows(before, after)
    requires sub.Some? ==> sub.value.0 < |after| && after[sub.value.0] && !before[sub.value.0]
    ensures TagsHeld(subs + [sub], after)
  {
    var s2 := subs + [sub];
    forall i, j | 0 <= i < j < |s2| && s2[i].Some? && s2[j].Some?
      ensures s2[i].value.0 != s2[j].value.0
    {
      if j == |subs| {
        assert before[s2[i].value.0];
      }
    }
  }

  /**
   * The vhost_scsi_virtqueue fields this model tracks: the two in-flight
   * slots with the index of the current one, and the tag bitmap over the
   * command array. Valid() is the reference-count invariant: every slot's
   * count is the commands holding it, plus its initial reference until a flush
   * drops it, plus the TMFs holding it.
   */
  class ScsiVirtqueue {
    var inflightIdx: nat
    var inflights: seq<Inflight>
    var hasCmds: bool
    var tags: array<bool>
    var cmds: array<Cmd>
    ghost var initialRef: seq<bool>
    ghost var tmfRefs: seq<nat>

    ghost predicate Valid()
      reads this, tags, cmds
    {
      && |inflights| == 2 && |initialRef| == 2 && |tmfRefs| == 2 && inflightIdx < 2
      && initialRef[inflightIdx]
      && tags.Length == cmds.Length
      && (!hasCmds ==> tags.Length == 0)
      && (forall t :: 0 <= t < tags.Length && tags[t] ==> cmds[t].inflight < 2 && cmds[t].mapTag == t)
      && (forall s :: 0 <= s < 2 ==>
            inflights[s].count == Holders(tags[..], cmds[..], s) + (if initialRef[s] then 1 else 0) + tmfRefs[s])
      && (forall s :: 0 <= s < 2 && inflights[s].completed ==> inflights[s].count == 0)
    }

    /** A freshly opened device queue: vhost_scsi_open's init_inflight moved it to slot 1. */
    constructor ()
      ensures Valid() && fresh(tags) && fresh(cmds)
      ensures inflightIdx == 1 && inflights == [Inflight(0, false), Inflight(1, false)]
      ensures !hasCmds && tags.Length == 0
    {
      inflightIdx := 1;
      inflights := [Inflight(0, false), Inflight(1, false)];
      hasCmds := false;
      tags := new bool[0];
      cmds := new Cmd[0];
      initialRef := [false, true];
      tmfRefs := [0, 0];
    }

    /**
     * The per-queue step of vhost_scsi_init_inflight: report the current slot
     * as old, flip the index, and reset the new slot to one reference. The
     * new slot must have drained (the flush that retired it waited for that).
     */
    method InitInflight() returns (oldIdx: nat)
      requires Valid() && inflights[1 - inflightIdx].count == 0
      modifies this
      ensures Valid() && tags == old(tags) && cmds == old(cmds) && hasCmds == old(hasCmds)
      ensures oldIdx == old(inflightIdx) && inflightIdx == 1 - oldIdx
      ensures inflights == old(inflights)[inflightIdx := Inflight(1, false)]
      ensures initialRef == old(initialRef)[inflightIdx := true] && tmfRefs == old(tmfRefs)
    {
      oldIdx := inflightIdx;
      inflightIdx := 1 - oldIdx;
      inflights := inflights[inflightIdx := Inflight(1, false)];
      initialRef := initialRef[inflightIdx := true];
    }

    /** vhost_scsi_get_inflight: one more reference on the current slot. */
    method GetInflight() returns (slot: nat)
      requires |inflights| == 2 && inflightIdx < 2
      modifies this`inflights
      ensures slot == inflightIdx
      ensures inflights == old(inflights)[slot := Inflight(old(inflights[slot].count) + 1, old(inflights[slot].completed))]
    {
      slot := inflightIdx;
      inflights := inflights[slot := Inflight(inflights[slot].count + 1, inflights[slot].completed)];
    }

    /** vhost_scsi_put_inflight: drop a reference; the completion fires when the count reaches 0. */
    method PutInflight(slot: nat) returns (fired: bool)
      requires slot < |inflights| && inflights[slot].count > 0
      modifies this`inflights
      ensures fired <==> old(inflights[slot].count) == 1
      ensures inflights == old(inflights)[slot := Inflight(old(inflights[slot].count) - 1,
                                                             old(inflights[slot].completed) || fired)]
    {
      var c := inflights[slot].count - 1;
      fired := c == 0;
      inflights := inflights[slot := Inflight(c, inflights[slot].completed || fired)];
    }

    /**
     * vhost_scsi_flush's first put on an old slot: its initial reference goes,
     * so the slot completes once the last command holding it is released.
     */
    method DropInitialRef(slot: nat) returns (fired: bool)
      requires Valid() && slot < 2 && slot != inflightIdx && initialRef[slot]
      modifies this
      ensures Valid() && tags == old(tags) && cmds == old(cmds) && hasCmds == old(hasCmds)
      ensures inflightIdx == old(inflightIdx) && tmfRefs == old(tmfRefs)
      ensures initialRef == old(initialRef)[slot := false]
      ensures fired <==> Holders(tags[..], cmds[..], slot) == 0 && tmfRefs[slot] == 0
      ensures inflights == old(inflights)[slot := Inflight(old(inflights[slot].count) - 1, fired)]
    {
      fired := PutInflight(slot);
      initialRef := initialRef[slot := false];
    }

    /**
     * vhost_scsi_flush for this queue: start a new epoch, then drop the old
     * epoch's initial reference. `fired` says whether the old epoch completed
     * at once; otherwise the flush's wait ends when ReleaseCmdRes or
     * TmfRespWork drops the last reference on it.
     */
    method Flush() returns (oldIdx: nat, fired: bool)
      requires Valid() && inflights[1 - inflightIdx].count == 0
      modifies this
      ensures Valid() && tags == old(tags) && cmds == old(cmds) && hasCmds == old(hasCmds)
      ensures oldIdx == old(inflightIdx) && inflightIdx == 1 - oldIdx
      ensures inflights[inflightIdx] == Inflight(1, false)
      ensures inflights[oldIdx] == Inflight(old(inflights[oldIdx].count) - 1, fired)
      ensures !initialRef[oldIdx] && initialRef[inflightIdx] && tmfRefs == old(tmfRefs)
      ensures fired <==> Holders(tags[..], cmds[..], oldIdx) == 0 && tmfRefs[oldIdx] == 0
    {
      oldIdx := InitInflight();
      fired := DropInitialRef(oldIdx);
    }

    /**
     * An unreserved tag, or -1 when there is none (sbitmap_get). sbitmap_get
     * starts from a per-CPU hint and may return any free tag; this search
     * always returns the lowest one.
     */
    method FindFreeTag() returns (t: int)
      requires tags.Length == cmds.Length
      ensures -1 <= t < tags.Length
      ensures t == -1 <==> forall k :: 0 <= k < tags.Length ==> tags[k]
      ensures t >= 0 ==> !tags[t] && forall k :: 0 <= k < t ==> tags[k]
    {
      t := 0;
      while t < tags.Length && tags[t]
        invariant 0 <= t <= tags.Length
        invariant forall k :: 0 <= k < t ==> tags[k]
      {
        t := t + 1;
      }
      if t == tags.Length { t := -1; }
    }

    /**
     * vhost_scsi_get_cmd: reserve a free tag, reset its slot (keeping the
     * preallocated buffers), record the tag and take a reference on the
     * current epoch; -ENOMEM with nothing changed when every tag is taken.
     */
    method GetCmd() returns (r: Result<nat>)
      requires Valid()
      modifies this, tags, cmds
      ensures Valid() && tags == old(tags) && cmds == old(cmds)
      ensures hasCmds == old(hasCmds) && inflightIdx == old(inflightIdx)
      ensures initialRef == old(initialRef) && tmfRefs == old(tmfRefs)
      ensures r.Err? <==> forall k :: 0 <= k < tags.Length ==> old(tags[k])
      ensures r.Err? ==> r.code == -ENOMEM && unchanged(tags, cmds) && inflights == old(inflights)
      ensures r.Ok? ==> var t := r.value;
        && t < tags.Length && !old(tags[t])
        && tags[..] == old(tags[..])[t := true]
        && cmds[..] == old(cmds[..])[t := ResetCmd(old(cmds[t]), t, inflightIdx)]
        && inflights == old(inflights)[inflightIdx := Inflight(old(inflights[inflightIdx].count) + 1, false)]
    {
      var t := FindFreeTag();
      if t < 0 {
        return Err(-ENOMEM);
      }
      ghost var oldTags, oldCmds := tags[..], cmds[..];
      ghost var idx := inflightIdx;
      var c := ResetCmd(cmds[t], t, inflightIdx);
      tags[t] := true;
      cmds[t] := c;
      var slot := GetInflight();
      assert tags[..] == oldTags[t := true] && cmds[..] == oldCmds[t := c];
      forall s | 0 <= s < 2
        ensures Holders(tags[..], cmds[..], s) == Holders(oldTags, oldCmds, s) + (if s == idx then 1 else 0)
      {
        HoldersUpdate(oldTags, oldCmds, t, true, c, s);
      }
      r := Ok(t);
    }

    /**
     * vhost_scsi_release_cmd_res: clear exactly the command's tag bit and drop
     * the one reference it holds on its epoch. The tag must be reserved, so a
     * tag is never freed twice.
     */
    method ReleaseCmdRes(tag: nat) returns (fired: bool)
      requires Valid() && tag < tags.Length && tags[tag]
      modifies this, tags
      ensures Valid() && tags == old(tags) && cmds == old(cmds) && unchanged(cmds)
      ensures hasCmds == old(hasCmds) && inflightIdx == old(inflightIdx)
      ensures initialRef == old(initialRef) && tmfRefs == old(tmfRefs)
      ensures tags[..] == old(tags[..])[tag := false]
      ensures var s := old(cmds[tag].inflight);
        && s < 2 && old(inflights[s].count) >= 1
        && (fired <==> old(inflights[s].count) == 1)
        && inflights == old(inflights)[s := Inflight(old(inflights[s].count) - 1, fired)]
    {
      ghost var oldTags := tags[..];
      var s := cmds[tag].inflight;
      HoldersUpdate(oldTags, cmds[..], tag, false, cmds[tag], s);
      tags[tag] := false;
      assert tags[..] == oldTags[tag := false];
      assert cmds[..] == cmds[..][tag := cmds[tag]];
      forall s' | 0 <= s' < 2
        ensures Holders(tags[..], cmds[..], s') + (if s' == s then 1 else 0) == Holders(oldTags, cmds[..], s')
      {
        HoldersUpdate(oldTags, cmds[..], tag, false, cmds[tag], s');
      }
      fired := PutInflight(s);
    }

    /**
     * vhost_scsi_setup_vq_cmds: nothing to do when the commands exist;
     * otherwise the bitmap, the command array, the page array and each
     * command's scatterlists are allocated in turn (each `*Ok` says whether
     * that allocation succeeds) and any failure undoes them with -ENOMEM.
     */
    method SetupVqCmds(maxCmds: nat, bitmapOk: bool, cmdsOk: bool, upagesOk: bool, sglsOk: bool)
      returns (ret: int)
      requires Valid()
      modifies this
      ensures Valid() && inflights == old(inflights) && inflightIdx == old(inflightIdx)
      ensures old(hasCmds) ==> ret == 0 && tags == old(tags) && cmds == old(cmds) && hasCmds
      ensures !old(hasCmds) ==>
        (ret == 0 <==> bitmapOk && cmdsOk && upagesOk && sglsOk)
        && (ret == 0 ==> hasCmds && tags.Length == maxCmds && fresh(tags) && fresh(cmds)
                         && forall t :: 0 <= t < maxCmds ==> !tags[t])
        && (ret != 0 ==> ret == -ENOMEM && !hasCmds && tags.Length == 0)
    {
      if hasCmds {
        return 0;
      }
      if !bitmapOk || !cmdsOk || !upagesOk || !sglsOk {
        return -ENOMEM;
      }
      AllocateCmds(maxCmds);
      ret := 0;
    }

    /** The successful allocation of SetupVqCmds: maxCmds free tags over fresh command slots. */
    method AllocateCmds(maxCmds: nat)
      requires Valid() && !hasCmds
      modifies this
      ensures Valid() && inflights == old(inflights) && inflightIdx == old(inflightIdx)
      ensures hasCmds && tags.Length == maxCmds && fresh(tags) && fresh(cmds)
      ensures forall t :: 0 <= t < maxCmds ==> !tags[t]
    {
      HoldersNoneReserved(tags[..], cmds[..], 0);
      HoldersNoneReserved(tags[..], cmds[..], 1);
      var newTags := new bool[maxCmds];
      forall t | 0 <= t < maxCmds {
        newTags[t] := false;
      }
      var newCmds := new Cmd[maxCmds];
      HoldersNoneReserved(newTags[..], newCmds[..], 0);
      HoldersNoneReserved(newTags[..], newCmds[..], 1);
      tags, cmds, hasCmds := newTags, newCmds, true;
    }

    /**
     * vhost_scsi_handle_tmf's effect on the queue: a request answered at once
     * leaves the epochs as they were (the reference taken on the way is
     * dropped again); a submitted reset holds one reference on the current
     * slot until its response is sent.
     */
    method HandleTmf(subtype: u32, tpg: Tpg, allocOk: bool, logOk: bool, submitOk: bool)
      returns (resp: Option<int>, slot: nat)
      requires Valid()
      modifies this
      ensures Valid() && tags == old(tags) && cmds == old(cmds) && hasCmds == old(hasCmds)
      ensures inflightIdx == old(inflightIdx) && initialRef == old(initialRef)
      ensures resp == TmfImmediate(subtype, tpg, allocOk, logOk, submitOk)
      ensures resp.Some? ==> inflights == old(inflights) && tmfRefs == old(tmfRefs)
      ensures resp.None? ==> (slot == inflightIdx
        && inflights == old(inflights)[slot := Inflight(old(inflights[slot].count) + 1, false)]
        && tmfRefs == old(tmfRefs)[slot := old(tmfRefs[slot]) + 1])
    {
      resp := TmfImmediate(subtype, tpg, allocOk, logOk, submitOk);
      slot := inflightIdx;
      if resp.None? {
        slot := GetInflight();
        tmfRefs := tmfRefs[slot := tmfRefs[slot] + 1];
      }
    }

    /**
     * vhost_scsi_tmf_resp_work followed by vhost_scsi_release_tmf_res: map
     * the reset's outcome to a response code and drop the TMF's reference.
     */
    method TmfRespWork(slot: nat, scsiResp: int) returns (code: int, fired: bool)
      requires Valid() && slot < 2 && tmfRefs[slot] > 0
      modifies this
      ensures Valid() && tags == old(tags) && cmds == old(cmds) && hasCmds == old(hasCmds)
      ensures inflightIdx == old(inflightIdx) && initialRef == old(initialRef)
      ensures code == TmfRespCode(scsiResp)
      ensures tmfRefs == old(tmfRefs)[slot := old(tmfRefs[slot]) - 1]
      ensures (fired <==> old(inflights[slot].count) == 1)
      ensures inflights == old(inflights)[slot := Inflight(old(inflights[slot].count) - 1, fired)]
    {
      code := TmfRespCode(scsiResp);
      tmfRefs := tmfRefs[slot := tmfRefs[slot] - 1];
      fired := PutInflight(slot);
    }
  
    /**
     * One pass of the request loop body of vhost_scsi_handle_vq: the checks
     * of Precheck, then a command slot, the response iovecs, the dirty-log
     * copy and the data mapping; a failure after the slot was reserved
     * releases it again.
     */
    method HandleOne(d: Desc, t10Pi: bool, tpgs: map<u8, Tpg>) returns (ret: int, sub: Option<(nat, Submission)>)
      requires Valid()
      modifies this, tags, cmds
      ensures Valid() && tags == old(tags) && cmds == old(cmds) && hasCmds == old(hasCmds)
      ensures inflightIdx == old(inflightIdx) && initialRef == old(initialRef) && tmfRefs == old(tmfRefs)
      ensures StepAgrees(Precheck(d, t10Pi, tpgs), d, ret, sub)
      ensures sub.Some? ==> sub.value.0 < tags.Length && tags[sub.value.0] && !old(tags[sub.value.0])
      ensures ret == -ENOMEM && Precheck(d, t10Pi, tpgs).Ok? && d.req.respIovsRet != -ENOMEM && d.req.logRet != -ENOMEM
        && d.req.mapalRet != -ENOMEM
        ==> forall t :: 0 <= t < tags.Length ==> old(tags[t])
      ensures Precheck(d, t10Pi, tpgs).Ok? ==>
        if forall t :: 0 <= t < tags.Length ==> old(tags[t]) then ret == -ENOMEM
        else ret == AfterSlotRet(d.req, Precheck(d, t10Pi, tpgs).value.dir)
      ensures Grows(old(tags[..]), tags[..])
    {
      var pre := Precheck(d, t10Pi, tpgs);
      sub := None;
      if pre.Err? {
        ret := pre.code;
        return;
      }
      var got := GetCmd();
      if got.Err? {
        ret := -ENOMEM;
      } else if d.req.respIovsRet != 0 {
        ret := d.req.respIovsRet;
        var _ := ReleaseCmdRes(got.value);
      } else if d.req.logRet != 0 {
        ret := d.req.logRet;
        var _ := ReleaseCmdRes(got.value);
      } else if pre.value.dir != DmaNone && d.req.mapalRet != 0 {
        ret := d.req.mapalRet;
        var _ := ReleaseCmdRes(got.value);
      } else {
        ret := 0;
        sub := Some((got.value, pre.value));
      }
    }

    /**
     * The request loop of vhost_scsi_handle_vq over the descriptors the guest
     * made available, at most WEIGHT per kick, ending early on -ENXIO.
     * Without a backend (no VHOST_SCSI_SET_ENDPOINT yet) it leaves at once.
     * rets[i] is the return code the loop's error block saw for descs[i] and
     * subs[i] the command submitted for it, if any. Every submitted command
     * owns a distinct reserved tag, and no tag reserved before is released.
     */
    method HandleVq(hasBackend: bool, descs: seq<Desc>, t10Pi: bool, tpgs: map<u8, Tpg>)
      returns (rets: seq<int>, subs: seq<Option<(nat, Submission)>>)
      requires Valid()
      modifies this, tags, cmds
      ensures Valid() && tags == old(tags) && cmds == old(cmds) && hasCmds == old(hasCmds)
      ensures inflightIdx == old(inflightIdx) && initialRef == old(initialRef) && tmfRefs == old(tmfRefs)
      ensures |rets| == |subs| && |rets| <= |descs| && |rets| <= WEIGHT
      ensures forall i :: 0 <= i < |rets| - 1 ==> rets[i] != -ENXIO
      ensures !hasBackend ==> rets == [] && subs == [] && unchanged(tags, cmds) && inflights == old(inflights)
      ensures hasBackend && |rets| < |descs| && |rets| < WEIGHT ==> |rets| > 0 && rets[|rets| - 1] == -ENXIO
      ensures forall i :: 0 <= i < |rets| ==> StepAgrees(Precheck(descs[i], t10Pi, tpgs), descs[i], rets[i], subs[i])
      ensures TagsHeld(subs, tags[..])
      ensures Grows(old(tags[..]), tags[..])
    {
      rets, subs := [], [];
      if !hasBackend {
        return;
      }
      var c := 0;
      var stop := false;
      while c < |descs| && c < WEIGHT && !stop
        invariant Valid() && tags == old(tags) && cmds == old(cmds) && hasCmds == old(hasCmds)
        invariant inflightIdx == old(inflightIdx) && initialRef == old(initialRef) && tmfRefs == old(tmfRefs)
        invariant c == |rets| && c <= WEIGHT
        invariant RunAgrees(descs, t10Pi, tpgs, rets, subs, stop)
        invariant TagsHeld(subs, tags[..])
        invariant Grows(old(tags[..]), tags[..])
      {
        ghost var before := tags[..];
        var ret, sub := HandleOne(descs[c], t10Pi, tpgs);
        TagsHeldExtend(subs, before, tags[..], sub);
        GrowsTrans(old(tags[..]), before, tags[..]);
        RunStep(descs, t10Pi, tpgs, rets, subs, ret, sub);
        rets, subs := rets + [ret], subs + [sub];
        c := c + 1;
        stop := ret == -ENXIO;
      }
    }
  }

  /**
   * rets and subs record the first |rets| passes of the request loop: each
   * agrees with Precheck, and the loop stopped (stop) exactly when the last
   * code was -ENXIO.
   */
  ghost predicate RunAgrees(descs: seq<Desc>, t10Pi: bool, tpgs: map<u8, Tpg>,
                            rets: seq<int>, subs: seq<Option<(nat, Submission)>>, stop: bool)
  {
    && |rets| == |subs| && |rets| <= |descs|
    && (forall i :: 0 <= i < |rets| - 1 ==> rets[i] != -ENXIO)
    && (|rets| > 0 ==> (stop <==> rets[|rets| - 1] == -ENXIO))
    && (|rets| == 0 ==> !stop)
    && (forall i :: 0 <= i < |rets| ==> StepAgrees(Precheck(descs[i], t10Pi, tpgs), descs[i], rets[i], subs[i]))
  }

  lemma RunStep(descs: seq<Desc>, t10Pi: bool, tpgs: map<u8, Tpg>,
                rets: seq<int>, subs: seq<Option<(nat, Submission)>>, ret: int, sub: Option<(nat, Submission)>)
    requires RunAgrees(descs, t10Pi, tpgs, rets, subs, false) && |rets| < |descs|
    requires StepAgrees(Precheck(descs[|rets|], t10Pi, tpgs), descs[|rets|], ret, sub)
    ensures RunAgrees(descs, t10Pi, tpgs, rets + [ret], subs + [sub], ret == -ENXIO)
  {
    var r2, s2 := rets + [ret], subs + [sub];
    forall i | 0 <= i < |r2|
      ensures StepAgrees(Precheck(descs[i], t10Pi, tpgs), descs[i], r2[i], s2[i])
    {
      if i < |rets| {
        assert r2[i] == rets[i] && s2[i] == subs[i];
      }
    }
  }

  // ---------------------------------------------------------------------
  // The device: flush across queues, and the event queue
  // ---------------------------------------------------------------------

  /** A virtio_scsi_event as written to the guest. */
  datatype Event = Event(event: bv32, reason: u32, lun: Lun)

  /** What the event virtqueue offers when vhost_scsi_do_evt_work asks for a buffer. */
  datatype EvtDesc =
    | EvtHeadError                      // head < 0
    | EvtEmpty                          // head == vq->num and enable_notify saw nothing new
    | EvtRefilled(next: EvtDesc)        // head == vq->num but new buffers arrived: goto again
    | EvtAvail(iovLen: nat, copyOk: bool)

  /** The event with VIRTIO_SCSI_T_EVENTS_MISSED ORed into its type. */
  function WithMissed(ev: Event): Event
  {
    Event(ev.event | VIRTIO_SCSI_T_EVENTS_MISSED, ev.reason, ev.lun)
  }

  /** The descriptor the `goto again` loop finally settles on. */
  function Settle(d: EvtDesc): (r: EvtDesc)
    ensures !r.EvtRefilled?
  {
    if d.EvtRefilled? then Settle(d.next) else d
  }

  /**
   * vhost_scsi_do_evt_work as a function: the missed flag afterwards and the
   * event written to the guest, if any. A pending miss is reported by ORing
   * EVENTS_MISSED into the next event that reaches a correctly sized buffer.
   */
  function EvtWork(hasBackend: bool, missed: bool, ev: Event, d: EvtDesc): (r: (bool, Option<Event>))
  {
    if !hasBackend then (true, None)
    else match Settle(d)
      case EvtAvail(len, ok) =>
        if len != EVENT_SIZE then (true, None)
        else
          var e := if missed then WithMissed(ev) else ev;
          (false, if ok then Some(e) else None)
      case _ => (true, None)
  }

  /**
   * An event that is not written sets the missed flag, except when the copy
   * to a correctly sized buffer faults (then the flag is cleared as well); the
   * event that is written carries EVENTS_MISSED exactly when a miss was
   * pending or it already had it, and clears the flag.
   */
  lemma EvtWorkSpec(hasBackend: bool, missed: bool, ev: Event, d: EvtDesc)
    ensures var (m, out) := EvtWork(hasBackend, missed, ev, d);
      var slotOk := hasBackend && Settle(d).EvtAvail? && Settle(d).iovLen == EVENT_SIZE;
      && (m <==> !slotOk)
      && (out.Some? <==> slotOk && Settle(d).copyOk)
      && (out.Some? ==> (out.value.reason == ev.reason && out.value.lun == ev.lun
            && (out.value.event & VIRTIO_SCSI_T_EVENTS_MISSED != 0
                <==> missed || ev.event & VIRTIO_SCSI_T_EVENTS_MISSED != 0)
            && out.value.event & !VIRTIO_SCSI_T_EVENTS_MISSED == ev.event & !VIRTIO_SCSI_T_EVENTS_MISSED))
  {
  }

  /**
   * vhost_scsi_complete_events without drop: each queued event in turn, the
   * missed flag threaded through; the result is the final flag and the events
   * written.
   */
  function DeliverAll(hasBackend: bool, missed: bool, evs: seq<Event>, descs: seq<EvtDesc>): (r: (bool, seq<Event>))
    requires |descs| == |evs|
    decreases |evs|
  {
    if |evs| == 0 then (missed, [])
    else
      var n := |evs| - 1;
      var (m, out) := DeliverAll(hasBackend, missed, evs[..n], descs[..n]);
      var (m2, o) := EvtWork(hasBackend, m, evs[n], descs[n]);
      (m2, out + if o.Some? then [o.value] else [])
  }

  /**
   * At most one write per queued event; without a backend nothing is
   * written and the miss is remembered; a pending miss survives a pass that
   * writes nothing unless a buffer of the right size was reached.
   */
  lemma {:induction false} DeliverAllSpec(hasBackend: bool, missed: bool, evs: seq<Event>, descs: seq<EvtDesc>)
    requires |descs| == |evs|
    ensures var (m, out) := DeliverAll(hasBackend, missed, evs, descs);
      && |out| <= |evs|
      && (!hasBackend ==> out == [] && (m <==> missed || evs != []))
      && ((missed && forall i :: 0 <= i < |evs| ==> !(Settle(descs[i]).EvtAvail? && Settle(descs[i]).iovLen == EVENT_SIZE))
          ==> m && out == [])
    decreases |evs|
  {
    if |evs| > 0 {
      var n := |evs| - 1;
      DeliverAllSpec(hasBackend, missed, evs[..n], descs[..n]);
      var (m, out) := DeliverAll(hasBackend, missed, evs[..n], descs[..n]);
      EvtWorkSpec(hasBackend, m, evs[n], descs[n]);
    }
  }

  /**
   * The event-queue state of the vhost_scsi device (vs_events_nr,
   * vs_events_missed, vs_event_list). The event list is kept newest first;
   * llist_del_all hands it to complete_events in that order.
   */
  class VhostScsi {
    var hasBackend: bool              // the event virtqueue has an endpoint
    var eventsNr: nat
    var eventsMissed: bool
    var eventList: seq<Event>
    var written: seq<Event>           // events written to the guest's event queue

    /** Every allocated event is queued, and at most MAX_EVENT + 1 ever are. */
    ghost predicate EventsValid()
      reads this
    {
      eventsNr == |eventList| && eventsNr <= MAX_EVENT + 1
    }

    /** vhost_scsi_allocate_evt: refuses (and records a miss) past MAX_EVENT or on allocation failure. */
    method AllocateEvt(event: u32, reason: u32, allocOk: bool) returns (ev: Option<Event>)
      modifies this`eventsNr, this`eventsMissed
      ensures ev.None? <==> old(eventsNr) > MAX_EVENT || !allocOk
      ensures ev.None? ==> eventsMissed && eventsNr == old(eventsNr)
      ensures ev.Some? ==> (eventsNr == old(eventsNr) + 1 && eventsMissed == old(eventsMissed)
        && ev.value == Event(event as bv32, reason, EventLun(None)))
    {
      if eventsNr > MAX_EVENT {
        eventsMissed := true;
        return None;
      }
      if !allocOk {
        eventsMissed := true;
        return None;
      }
      ev := Some(Event(event as bv32, reason, EventLun(None)));
      eventsNr := eventsNr + 1;
    }

    /** vhost_scsi_free_evt. */
    method FreeEvt()
      requires eventsNr > 0
      modifies this`eventsNr
      ensures eventsNr == old(eventsNr) - 1
    {
      eventsNr := eventsNr - 1;
    }

    /** vhost_scsi_do_evt_work, with the `goto again` loop over refilled rings. */
    method DoEvtWork(ev: Event, d: EvtDesc)
      modifies this`eventsMissed, this`written
      ensures var (m, out) := EvtWork(hasBackend, old(eventsMissed), ev, d);
        eventsMissed == m && written == old(written) + (if out.Some? then [out.value] else [])
    {
      if !hasBackend {
        eventsMissed := true;
        return;
      }
      var cur := d;
      while cur.EvtRefilled?
        invariant Settle(cur) == Settle(d)
        decreases cur
      {
        cur := cur.next;
      }
      assert cur == Settle(d);
      match cur {
        case EvtHeadError =>
          eventsMissed := true;
        case EvtEmpty =>
          eventsMissed := true;
        case EvtAvail(len, ok) =>
          if len != EVENT_SIZE {
            eventsMissed := true;
          } else {
            var e := ev;
            if eventsMissed {
              e := WithMissed(ev);
              eventsMissed := false;
            }
            if ok {
              written := written + [e];
            }
          }
      }
    }

    /**
     * vhost_scsi_complete_events: take the whole list, deliver each event
     * unless dropping, and free every one of them.
     */
    method CompleteEvents(drop: bool, descs: seq<EvtDesc>)
      requires EventsValid()
      requires !drop ==> |descs| >= |eventList|
      modifies this`eventsNr, this`eventsMissed, this`written, this`eventList
      ensures EventsValid() && eventList == [] && eventsNr == 0
      ensures drop ==> eventsMissed == old(eventsMissed) && written == old(written)
      ensures !drop ==> var (m, out) := DeliverAll(hasBackend, old(eventsMissed), old(eventList), descs[..|old(eventList)|]);
        eventsMissed == m && written == old(written) + out
    {
      var evs := eventList;
      eventList := [];
      ghost var ds := if drop then [] else descs[..|evs|];
      for i := 0 to |evs|
        invariant eventsNr == |evs| - i && eventList == []
        invariant drop ==> eventsMissed == old(eventsMissed) && written == old(written)
        invariant !drop ==> var (m, out) := DeliverAll(hasBackend, old(eventsMissed), evs[..i], ds[..i]);
          eventsMissed == m && written == old(written) + out
      {
        if !drop {
          assert evs[..i + 1][..i] == evs[..i] && ds[..i + 1][..i] == ds[..i];
          DoEvtWork(evs[i], descs[i]);
        }
        FreeEvt();
      }
      assert evs[..|evs|] == evs;
      assert !drop ==> ds[..|evs|] == ds;
    }

    /**
     * vhost_scsi_send_evt: allocate, fill in the LUN when a tpg and LUN are
     * given, queue it, and drop the whole list at once if the event work
     * cannot be queued.
     */
    method SendEvt(target: Option<(u16, u64)>, event: u32, reason: u32, allocOk: bool, workQueued: bool)
      requires EventsValid()
      modifies this`eventsNr, this`eventsMissed, this`written, this`eventList
      ensures EventsValid() && written == old(written)
      ensures old(eventsNr) > MAX_EVENT || !allocOk ==> eventsMissed && eventList == old(eventList)
      ensures old(eventsNr) <= MAX_EVENT && allocOk && workQueued ==>
        eventList == [Event(event as bv32, reason, EventLun(target))] + old(eventList)
        && eventsMissed == old(eventsMissed)
      ensures old(eventsNr) <= MAX_EVENT && allocOk && !workQueued ==>
        eventList == [] && eventsMissed == old(eventsMissed)
    {
      var ev := AllocateEvt(event, reason, allocOk);
      if ev.None? {
        return;
      }
      var e := ev.value;
      if target.Some? {
        e := Event(e.event, e.reason, EventLun(target));
      }
      eventList := [e] + eventList;
      if !workQueued {
        CompleteEvents(true, []);
      }
    }
  }
}
