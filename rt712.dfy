// The Realtek RT712 SDCA codec of sound/soc/codecs/rt712-sdca.c: the
// private-register addressing and read-modify-write helpers, the volume
// controls' gain encoding and decoding, the playback and capture mute
// switches, jack and button detection, and the sample-rate and port
// selection of hw_params. The two regmaps are one register map here, keyed
// by the symbolic SDCA control, the private index address or the HID buffer
// address; writes to the registers in `stuck` fail with -EIO and leave the
// register unchanged, which models a bus error.

module Rt712 {
  import opened Ints
  import opened Errno
  import opened Wrappers
  import opened Bits

  const TEN_DB: nat := 0xa00
  const INTERVAL_OFFSET: nat := 0xc0
  const FU0F_GAIN_BASE: nat := 0x1e00
  const BOOST_SHIFT: nat := 8
  const CH_01: nat := 1
  const CH_02: nat := 2
  const BUTTON_MESSAGE: nat := 0x11
  const MAX_CHANNELS: nat := 16

  // ---------------------------------------------------------------------
  // Registers
  // ---------------------------------------------------------------------

  /** The function units whose controls the codec exposes. */
  datatype Fu = Fu05 | Fu0F | Fu44 | Fu06

  /** The clock sources whose sample-frequency index hw_params sets. */
  datatype Cs = Cs01 | Cs11 | Cs31 | Cs1F | Cs1C

  /** SDW_SDCA_CTL(function, entity, control, channel), by name. */
  datatype Ctl =
    | FuMute(fu: Fu, ch: nat)
    | FuVolume(fu: Fu, ch: nat)
    | FuChGain(fu: Fu, ch: nat)
    | DetectedMode
    | SelectedMode
    | HidCurrentOwner
    | HidSetOwnerToDevice
    | HidMessageOffset
    | SampleFreqIndex(cs: Cs)

  /** A register: an SDCA control, a private (index) register, or a HID message byte. */
  datatype Reg = Sdca(ctl: Ctl) | Index(addr: nat) | HidBuf(addr: nat)

  datatype Version = VA | VB

  /** The private-register address (nid << 20) | reg, in unsigned int. */
  function IndexAddr(nid: u32, reg: u32): (a: u32)
  {
    var hi := Wrap32(nid * Pow2(20));
    Pow2Literals();
    AndOrBelow(hi, reg, 32);
    Or(hi, reg)
  }

  /** For a 12-bit nid and a 20-bit reg the address holds both side by side. */
  lemma IndexAddrFields(nid: u32, reg: u32)
    requires nid < 0x1000 && reg < 0x10_0000
    ensures IndexAddr(nid, reg) == nid * 0x10_0000 + reg
    ensures IndexAddr(nid, reg) / 0x10_0000 == nid && IndexAddr(nid, reg) % 0x10_0000 == reg
  {
    Pow2Literals();
    assert nid * Pow2(20) < U32_LIMIT;
    OrShift(nid, reg, 20);
    DivModUnique(nid * 0x10_0000 + reg, 0x10_0000, nid, reg);
  }

  /** Distinct (nid, reg) pairs in range name distinct private registers. */
  lemma IndexAddrInjective(n1: u32, r1: u32, n2: u32, r2: u32)
    requires n1 < 0x1000 && r1 < 0x10_0000 && n2 < 0x1000 && r2 < 0x10_0000
    ensures IndexAddr(n1, r1) == IndexAddr(n2, r2) <==> n1 == n2 && r1 == r2
  {
    IndexAddrFields(n1, r1);
    IndexAddrFields(n2, r2);
  }

  /** set_mask_bits(&cur, mask, val): (cur & ~mask) | val, in unsigned int. */
  function UpdateBits(cur: u32, mask: u32, val: u32): (r: u32)
  {
    Pow2Literals();
    var notMask := Not32(mask);
    AndOrBelow(cur, notMask, 32);
    AndOrBelow(And(cur, notMask), val, 32);
    Or(And(cur, notMask), val)
  }

  /**
   * When val lies within mask, each bit of the result is val's bit inside
   * the mask and cur's bit outside it.
   */
  lemma UpdateBitsBit(cur: u32, mask: u32, val: u32, k: nat)
    requires And(val, mask) == val
    ensures Bit(UpdateBits(cur, mask, val), k) == if Bit(mask, k) == 1 then Bit(val, k) else Bit(cur, k)
  {
    Pow2Is32();
    var notMask := Not32(mask);
    var kept := And(cur, notMask);
    assert UpdateBits(cur, mask, val) == Or(kept, val);
    OrBit(kept, val, k);
    AndBit(cur, notMask, k);
    TimesBit(Bit(cur, k), Bit(notMask, k));
    ComplementBit(mask, 32, k);
    AndBit(val, mask, k);
    TimesBit(Bit(val, k), Bit(mask, k));
    if k >= 32 {
      BitsAbove(cur, 32, k);
      BitsAbove(mask, 32, k);
    }
  }

  /**
   * Only the masked bits change: outside the mask the register keeps its old
   * bits, inside it holds val, and applying the update again changes nothing.
   */
  lemma UpdateBitsKeeps(cur: u32, mask: u32, val: u32)
    requires And(val, mask) == val
    ensures And(UpdateBits(cur, mask, val), Not32(mask)) == And(cur, Not32(mask))
    ensures And(UpdateBits(cur, mask, val), mask) == val
    ensures UpdateBits(UpdateBits(cur, mask, val), mask, val) == UpdateBits(cur, mask, val)
  {
    var r := UpdateBits(cur, mask, val);
    forall k: nat
      ensures Bit(And(r, Not32(mask)), k) == Bit(And(cur, Not32(mask)), k)
    {
      KeepsOutside(cur, mask, val, k);
    }
    forall k: nat
      ensures Bit(And(r, mask), k) == Bit(val, k)
    {
      KeepsInside(cur, mask, val, k);
    }
    forall k: nat
      ensures Bit(UpdateBits(r, mask, val), k) == Bit(r, k)
    {
      UpdateBitsBit(cur, mask, val, k);
      UpdateBitsBit(r, mask, val, k);
    }
    BitsEqual(And(r, Not32(mask)), And(cur, Not32(mask)));
    BitsEqual(And(r, mask), val);
    BitsEqual(UpdateBits(r, mask, val), r);
  }

  lemma KeepsOutside(cur: u32, mask: u32, val: u32, k: nat)
    requires And(val, mask) == val
    ensures Bit(And(UpdateBits(cur, mask, val), Not32(mask)), k) == Bit(And(cur, Not32(mask)), k)
  {
    Pow2Is32();
    var r := UpdateBits(cur, mask, val);
    var nb := Bit(Not32(mask), k);
    UpdateBitsBit(cur, mask, val, k);
    AndBit(r, Not32(mask), k);
    TimesBit(Bit(r, k), nb);
    AndBit(cur, Not32(mask), k);
    TimesBit(Bit(cur, k), nb);
    ComplementBit(mask, 32, k);
  }

  lemma KeepsInside(cur: u32, mask: u32, val: u32, k: nat)
    requires And(val, mask) == val
    ensures Bit(And(UpdateBits(cur, mask, val), mask), k) == Bit(val, k)
  {
    var r := UpdateBits(cur, mask, val);
    var mb := Bit(mask, k);
    UpdateBitsBit(cur, mask, val, k);
    AndBit(r, mask, k);
    TimesBit(Bit(r, k), mb);
    AndBit(val, mask, k);
    TimesBit(Bit(val, k), mb);
  }

  // ---------------------------------------------------------------------
  // Volume controls
  // ---------------------------------------------------------------------

  /** A SOC_DOUBLE_R_EXT_TLV control: left and right registers, shift and maximum. */
  datatype Mixer = Mixer(name: string, reg: Reg, rreg: Reg, shift: nat, max: u32)

  /** strstr(s, p) != NULL. */
  function Contains(s: string, p: string): (b: bool)
    ensures |p| == 0 ==> b
    decreases |s|
  {
    if |s| < |p| then false
    else s[..|p|] == p || (|s| > 0 && Contains(s[1..], p))
  }

  /** The capture volume of FU0F counts from +0x1e00 instead of from 0. */
  function GainBase(m: Mixer): nat
  {
    if Contains(m.name, "FU0F Capture Volume") then FU0F_GAIN_BASE else 0
  }

  /** The volume controls of the codec and of its speaker function. */
  const Controls: seq<Mixer> := [
    Mixer("FU05 Playback Volume", Sdca(FuVolume(Fu05, CH_01)), Sdca(FuVolume(Fu05, CH_02)), 0, 0x57),
    Mixer("FU0F Capture Volume", Sdca(FuVolume(Fu0F, CH_01)), Sdca(FuVolume(Fu0F, CH_02)), 0, 0x3f),
    Mixer("FU44 Boost Volume", Sdca(FuChGain(Fu44, CH_01)), Sdca(FuChGain(Fu44, CH_02)), BOOST_SHIFT, 3),
    Mixer("FU06 Playback Volume", Sdca(FuVolume(Fu06, CH_01)), Sdca(FuVolume(Fu06, CH_02)), 0, 0x57)
  ]

  /** The requested level: the long from user space as unsigned int, clamped to max. */
  function Clamp(m: Mixer, value: int): (g: u32)
    ensures g <= m.max
    ensures 0 <= value <= m.max ==> g == value
  {
    var g := Wrap32(value);
    if g > m.max then m.max else g
  }

  /**
   * gain_put's register value: 10 dB steps for the boost, otherwise 0.75 dB
   * steps down from the base, kept to 16 bits. The unsigned int result is
   * masked with 0xffff, so it is the difference modulo 2^16.
   */
  function EncodeGain(m: Mixer, value: int): (r: u32)
    ensures m.shift != BOOST_SHIFT ==> r < U16_LIMIT
    ensures m.shift != BOOST_SHIFT && Clamp(m, value) == m.max ==> r == GainBase(m) % U16_LIMIT
    ensures m.shift == BOOST_SHIFT && Fits(m) ==> r % TEN_DB == 0 && r <= m.max * TEN_DB
  {
    var g := Clamp(m, value);
    if m.shift == BOOST_SHIFT then Wrap32(g * TEN_DB)
    else (GainBase(m) - (m.max - g) * INTERVAL_OFFSET) % U16_LIMIT
  }

  /** gain_get's level for a register value, in unsigned int. */
  function DecodeGain(m: Mixer, read: u32): (r: u32)
    ensures m.shift == BOOST_SHIFT ==> r * TEN_DB <= read < r * TEN_DB + TEN_DB
    ensures m.shift != BOOST_SHIFT && read == GainBase(m) % U16_LIMIT ==> r == m.max
  {
    if m.shift == BOOST_SHIFT then read / TEN_DB
    else Wrap32(m.max - ((GainBase(m) - read) % U16_LIMIT) / INTERVAL_OFFSET)
  }

  /** The range of a control fits its register encoding. */
  predicate Fits(m: Mixer)
  {
    m.max * INTERVAL_OFFSET < U16_LIMIT && m.max * TEN_DB < U32_LIMIT
  }

  lemma ControlsFit()
    ensures forall i :: 0 <= i < |Controls| ==> Fits(Controls[i])
  {
  }

  /** Reading back an encoded gain gives the clamped request. */
  lemma GetAfterPut(m: Mixer, value: int)
    requires Fits(m)
    ensures DecodeGain(m, EncodeGain(m, value)) == Clamp(m, value)
  {
    var g := Clamp(m, value);
    var e := EncodeGain(m, value);
    if m.shift == BOOST_SHIFT {
      assert e == g * TEN_DB;
      DivModUnique(e, TEN_DB, g, 0);
    } else {
      var base := GainBase(m);
      var t := (m.max - g) * INTERVAL_OFFSET;
      assert 0 <= t < U16_LIMIT by {
        assert t <= m.max * INTERVAL_OFFSET;
      }
      var q := (base - t) / U16_LIMIT;
      assert base - t == q * U16_LIMIT + e;
      DivModUnique(base - e, U16_LIMIT, q, t);
      DivModUnique(t, INTERVAL_OFFSET, m.max - g, 0);
    }
  }

  // ---------------------------------------------------------------------
  // Switches, buttons, jack and stream parameters
  // ---------------------------------------------------------------------

  /** The two mixer switches: FU0F capture and FU05 playback. */
  datatype Switch = Fu0fCapture | Fu05Playback

  function FuOf(sw: Switch): Fu
  {
    match sw
    case Fu0fCapture => Fu0F
    case Fu05Playback => Fu05
  }

  /** A function unit's mute inputs: DAPM power state and the two mixer switches. */
  datatype MuteState = MuteState(dapm: bool, mixerL: bool, mixerR: bool)

  function MuteBit(b: bool): u32
  {
    if b then 1 else 0
  }

  /** ALSA's switch value: 1 for "on", i.e. not muted. */
  function SwitchValue(mute: bool): nat
  {
    if mute then 0 else 1
  }

  datatype DapmEvent = PostPmu | PrePmd | OtherEvent

  datatype Button = Btn0 | Btn1 | Btn2 | Btn3

  /** The button of buf[1] & 0xf0. */
  function HighButton(hi: nat): set<Button>
  {
    if hi == 0x10 then {Btn2}
    else if hi == 0x20 then {Btn3}
    else if hi == 0x40 then {Btn0}
    else if hi == 0x80 then {Btn1}
    else {}
  }

  /** The button of buf[2]. */
  function LowButton(b: nat): set<Button>
  {
    if b == 0x01 || b == 0x10 then {Btn2}
    else if b == 0x02 || b == 0x20 then {Btn3}
    else if b == 0x04 || b == 0x40 then {Btn0}
    else if b == 0x08 || b == 0x80 then {Btn1}
    else {}
  }

  /** The buttons a three-byte UMP message reports; only a 0x11 message reports any. */
  function ButtonsOf(b0: nat, b1: nat, b2: nat): set<Button>
  {
    if b0 != BUTTON_MESSAGE then {} else HighButton(And(b1, 0xf0)) + LowButton(b2)
  }

  lemma ButtonsOfMeaning(b0: nat, b1: nat, b2: nat)
    ensures ButtonsOf(b0, b1, b2) != {} ==> b0 == BUTTON_MESSAGE
    ensures |ButtonsOf(b0, b1, b2)| <= 2
    ensures Btn2 in ButtonsOf(b0, b1, b2) <==> b0 == BUTTON_MESSAGE && (And(b1, 0xf0) == 0x10 || b2 == 0x01 || b2 == 0x10)
    ensures Btn3 in ButtonsOf(b0, b1, b2) <==> b0 == BUTTON_MESSAGE && (And(b1, 0xf0) == 0x20 || b2 == 0x02 || b2 == 0x20)
    ensures Btn0 in ButtonsOf(b0, b1, b2) <==> b0 == BUTTON_MESSAGE && (And(b1, 0xf0) == 0x40 || b2 == 0x04 || b2 == 0x40)
    ensures Btn1 in ButtonsOf(b0, b1, b2) <==> b0 == BUTTON_MESSAGE && (And(b1, 0xf0) == 0x80 || b2 == 0x08 || b2 == 0x80)
  {
    var h := HighButton(And(b1, 0xf0));
    var l := LowButton(b2);
    assert |h| <= 1 && |l| <= 1;
    if b0 == BUTTON_MESSAGE {
      assert |h + l| <= |h| + |l| by {
        SetUnionSize(h, l);
      }
    }
  }

  lemma SetUnionSize<T>(a: set<T>, b: set<T>)
    ensures |a + b| <= |a| + |b|
  {
    assert |a + b| == |a| + |b - a|;
    assert b - a <= b;
  }

  /** The jack types detected_mode reports. */
  datatype JackType = JackNone | Headphone | Headset

  /** headset_detect's switch: 0, 3 and 5 name a type, other modes keep the current one. */
  function JackTypeOf(detMode: nat, current: JackType): JackType
  {
    if detMode == 0x00 then JackNone
    else if detMode == 0x03 then Headphone
    else if detMode == 0x05 then Headset
    else current
  }

  /** One snd_soc_jack_report: the jack type and the pressed buttons. */
  datatype Report = Report(jack: JackType, buttons: set<Button>)

  datatype Direction = Playback | Capture

  datatype Dai = Aif1 | Aif2 | Aif3

  /** The SoundWire data port of a stream: playback AIF1/AIF2, capture AIF1/AIF3. */
  function PortOf(dir: Direction, dai: Dai): Option<nat>
  {
    match (dir, dai)
    case (Playback, Aif1) => Some(1)
    case (Playback, Aif2) => Some(3)
    case (Capture, Aif1) => Some(4)
    case (Capture, Aif3) => Some(8)
    case _ => None
  }

  /** The position of a supported rate among the four RT712_SDCA_RATE_* indices. */
  function RateIndexOf(rate: nat): Option<nat>
  {
    if rate == 44100 then Some(0)
    else if rate == 48000 then Some(1)
    else if rate == 96000 then Some(2)
    else if rate == 192000 then Some(3)
    else None
  }

  lemma PortsAndRatesDistinct(d1: Direction, a1: Dai, d2: Direction, a2: Dai, rate1: nat, rate2: nat)
    ensures PortOf(d1, a1).Some? && PortOf(d1, a1) == PortOf(d2, a2) ==> d1 == d2 && a1 == a2
    ensures RateIndexOf(rate1).Some? && RateIndexOf(rate1) == RateIndexOf(rate2) ==> rate1 == rate2
    ensures RateIndexOf(rate1).Some? ==> RateIndexOf(rate1).value < 4
  {
  }

  /** The clock sources whose sample-frequency index a DAI's stream sets. */
  function SampleFreqCtls(dai: Dai): seq<Cs>
  {
    match dai
    case Aif1 => [Cs01, Cs11]
    case Aif2 => [Cs31]
    case Aif3 => [Cs1F, Cs1C]
  }

  /** The return value of pcm_hw_params. */
  function HwParamsResult(version: Version, dir: Direction, dai: Dai, rate: nat, channels: nat,
                          hasStream: bool, hasSlave: bool, addSlaveRet: int): (r: int)
    ensures r == 0 || r == -EINVAL || r == addSlaveRet
    ensures !hasStream || !hasSlave || PortOf(dir, dai).None? ==> r == -EINVAL
    ensures r == 0 ==> channels <= MAX_CHANNELS && RateIndexOf(rate).Some?
  {
    if !hasStream || !hasSlave then -EINVAL
    else if dai == Aif3 && version == VA then -EINVAL
    else if PortOf(dir, dai).None? then -EINVAL
    else if addSlaveRet != 0 then addSlaveRet
    else if channels > MAX_CHANNELS then -EINVAL
    else if RateIndexOf(rate).None? then -EINVAL
    else 0
  }

  lemma HwParamsAccepts(version: Version, dir: Direction, dai: Dai, rate: nat, channels: nat,
                        hasStream: bool, hasSlave: bool, addSlaveRet: int)
    ensures HwParamsResult(version, dir, dai, rate, channels, hasStream, hasSlave, addSlaveRet) == 0
        <==> hasStream && hasSlave && !(dai == Aif3 && version == VA) && PortOf(dir, dai).Some?
             && addSlaveRet == 0 && channels <= MAX_CHANNELS && rate in {44100, 48000, 96000, 192000}
  {
  }

  // ---------------------------------------------------------------------
  // The codec
  // ---------------------------------------------------------------------

  /** A register's value in map m; registers never written read as zero. */
  function ReadIn(m: map<Reg, u32>, r: Reg): u32
  {
    if r in m then m[r] else 0
  }

  class Codec {
    var regs: map<Reg, u32>
    const stuck: set<Reg>
    const version: Version
    var jackType: JackType
    var fu0f: MuteState
    var fu05: MuteState

    /** The driver state rt712_sdca_init sets up: FU0F fully muted, FU05 muted by DAPM only. */
    constructor (version: Version, stuck: set<Reg>)
      ensures this.version == version && this.stuck == stuck
      ensures regs == map[] && jackType == JackNone
      ensures fu0f == MuteState(true, true, true)
      ensures fu05 == MuteState(true, false, false)
    {
      this.version := version;
      this.stuck := stuck;
      regs := map[];
      jackType := JackNone;
      fu0f := MuteState(true, true, true);
      fu05 := MuteState(true, false, false);
    }

    /** A register's value; registers never written read as zero. */
    function Read(r: Reg): u32
      reads this
    {
      ReadIn(regs, r)
    }

    /** The register map after one regmap_write. */
    function Written(m: map<Reg, u32>, r: Reg, v: u32): (m': map<Reg, u32>)
      ensures r !in stuck ==> r in m' && m'[r] == v
      ensures forall q :: q != r ==> (q in m' <==> q in m) && (q in m ==> m'[q] == m[q])
      ensures r in stuck ==> m' == m
    {
      if r in stuck then m else m[r := v]
    }

    /** The register map after writing v to each of the sample-frequency controls. */
    function WrittenAll(m: map<Reg, u32>, cs: seq<Cs>, v: u32): map<Reg, u32>
      decreases |cs|
    {
      if |cs| == 0 then m else WrittenAll(Written(m, Sdca(SampleFreqIndex(cs[0])), v), cs[1..], v)
    }

    method Write(r: Reg, v: u32) returns (ret: int)
      modifies this`regs
      ensures ret == (if r in stuck then -EIO else 0)
      ensures regs == Written(old(regs), r, v)
    {
      if r in stuck {
        return -EIO;
      }
      regs := regs[r := v];
      return 0;
    }

    function State(sw: Switch): MuteState
      reads this
    {
      match sw
      case Fu0fCapture => fu0f
      case Fu05Playback => fu05
    }

    /** The mute registers of a switch hold dapm || mixer mute, channel by channel. */
    predicate HwMuteMatches(sw: Switch)
      reads this
    {
      var st := State(sw);
      Read(Sdca(FuMute(FuOf(sw), CH_01))) == MuteBit(st.dapm || st.mixerL)
      && Read(Sdca(FuMute(FuOf(sw), CH_02))) == MuteBit(st.dapm || st.mixerR)
    }

    /** A switch already holds the state a put of (v0, v1) asks for. */
    predicate SwitchHolds(sw: Switch, v0: int, v1: int)
      reads this
    {
      State(sw).mixerL == (v0 == 0) && State(sw).mixerR == (v1 == 0)
    }

    // -------------------------------------------------------------------
    // Private registers
    // -------------------------------------------------------------------

    method IndexWrite(nid: u32, reg: u32, value: u32) returns (ret: int)
      modifies this`regs
      ensures ret == (if Index(IndexAddr(nid, reg)) in stuck then -EIO else 0)
      ensures regs == Written(old(regs), Index(IndexAddr(nid, reg)), value)
    {
      ret := Write(Index(IndexAddr(nid, reg)), value);
    }

    method IndexRead(nid: u32, reg: u32) returns (ret: int, value: u32)
      ensures ret == 0
      ensures value == Read(Index(IndexAddr(nid, reg)))
    {
      return 0, Read(Index(IndexAddr(nid, reg)));
    }

    /** Reads a private register, replaces its masked bits by val and writes it back. */
    method IndexUpdateBits(nid: u32, reg: u32, mask: u32, val: u32) returns (ret: int)
      modifies this`regs
      ensures var r := Index(IndexAddr(nid, reg));
              ret == (if r in stuck then -EIO else 0)
              && regs == Written(old(regs), r, UpdateBits(old(Read(r)), mask, val))
      ensures And(val, mask) == val && ret == 0 ==>
                And(Read(Index(IndexAddr(nid, reg))), Not32(mask))
                  == And(old(Read(Index(IndexAddr(nid, reg)))), Not32(mask))
                && And(Read(Index(IndexAddr(nid, reg))), mask) == val
    {
      var r0, tmp := IndexRead(nid, reg);
      if And(val, mask) == val {
        UpdateBitsKeeps(tmp, mask, val);
      }
      ret := IndexWrite(nid, reg, UpdateBits(tmp, mask, val));
    }

    // -------------------------------------------------------------------
    // Volume
    // -------------------------------------------------------------------

    /**
     * set_gain_put: encodes both channels and writes them unless both
     * registers already hold those values, then checks the read-back.
     */
    method GainPut(m: Mixer, v0: int, v1: int) returns (ret: int)
      modifies this`regs
      ensures var gl := EncodeGain(m, v0);
              var gr := EncodeGain(m, v1);
              if old(Read(m.reg)) == gl && old(Read(m.rreg)) == gr then
                ret == 0 && regs == old(regs)
              else
                regs == Written(Written(old(regs), m.reg, gl), m.rreg, gr)
                && ret == (if Read(m.reg) == gl && Read(m.rreg) == gr then 1 else -EIO)
      ensures ret >= 0 && Fits(m) ==> GainGet(m) == (Clamp(m, v0), Clamp(m, v1))
    {
      var lvalue := Read(m.reg);
      var rvalue := Read(m.rreg);
      var gl := EncodeGain(m, v0);
      var gr := EncodeGain(m, v1);
      if Fits(m) {
        GetAfterPut(m, v0);
        GetAfterPut(m, v1);
      }
      if lvalue == gl && rvalue == gr {
        return 0;
      }
      var _ := Write(m.reg, gl);
      var _ := Write(m.rreg, gr);
      var readL := Read(m.reg);
      var readR := Read(m.rreg);
      if readR == gr && readL == gl {
        return 1;
      }
      return -EIO;
    }

    /** set_gain_get: both channels decoded; R is taken from L when the registers agree. */
    function GainGet(m: Mixer): (r: (u32, u32))
      reads this
      ensures r.0 == DecodeGain(m, Read(m.reg)) && r.1 == DecodeGain(m, Read(m.rreg))
    {
      var readL := Read(m.reg);
      var readR := Read(m.rreg);
      var ctlL := DecodeGain(m, readL);
      (ctlL, if readL != readR then DecodeGain(m, readR) else ctlL)
    }

    // -------------------------------------------------------------------
    // Mute switches
    // -------------------------------------------------------------------

    /** set_fu0f_capture_ctl / set_fu05_playback_ctl: writes the two channel mutes. */
    method SetMuteCtl(sw: Switch) returns (err: int)
      modifies this`regs
      ensures var st := State(sw);
              var r1 := Sdca(FuMute(FuOf(sw), CH_01));
              var r2 := Sdca(FuMute(FuOf(sw), CH_02));
              if r1 in stuck then err == -EIO && regs == old(regs)
              else regs == Written(Written(old(regs), r1, MuteBit(st.dapm || st.mixerL)), r2, MuteBit(st.dapm || st.mixerR))
                   && err == (if r2 in stuck then -EIO else 0)
      ensures err == 0 ==> HwMuteMatches(sw)
    {
      var st := State(sw);
      var ch01 := MuteBit(st.dapm || st.mixerL);
      var ch02 := MuteBit(st.dapm || st.mixerR);
      err := Write(Sdca(FuMute(FuOf(sw), CH_01)), ch01);
      if err < 0 {
        return err;
      }
      err := Write(Sdca(FuMute(FuOf(sw), CH_02)), ch02);
      if err < 0 {
        return err;
      }
      return 0;
    }

    /** fu0f_capture_get / fu05_playback_get: each channel is on unless its mixer mute is set. */
    function SwitchGet(sw: Switch): (r: (nat, nat))
      reads this
      ensures r.0 <= 1 && r.1 <= 1
    {
      (SwitchValue(State(sw).mixerL), SwitchValue(State(sw).mixerR))
    }

    /**
     * fu0f_capture_put / fu05_playback_put: a request equal to the stored
     * state returns 0 and touches nothing; otherwise the mixer mutes are
     * stored and written through.
     */
    method SwitchPut(sw: Switch, v0: int, v1: int) returns (ret: int)
      modifies this`regs, this`fu0f, this`fu05
      ensures old(SwitchHolds(sw, v0, v1)) ==>
                ret == 0 && regs == old(regs) && fu0f == old(fu0f) && fu05 == old(fu05)
      ensures !old(SwitchHolds(sw, v0, v1)) ==>
                State(sw) == MuteState(old(State(sw)).dapm, v0 == 0, v1 == 0)
                && (sw == Fu0fCapture ==> fu05 == old(fu05))
                && (sw == Fu05Playback ==> fu0f == old(fu0f))
                && (ret == 1 || ret == -EIO)
                && (ret == 1 ==> HwMuteMatches(sw))
      ensures SwitchHolds(sw, v0, v1)
      ensures SwitchGet(sw) == (if v0 == 0 then 0 else 1, if v1 == 0 then 0 else 1)
    {
      if SwitchHolds(sw, v0, v1) {
        return 0;
      }
      var st := MuteState(State(sw).dapm, v0 == 0, v1 == 0);
      if sw == Fu0fCapture {
        fu0f := st;
      } else {
        fu05 := st;
      }
      var err := SetMuteCtl(sw);
      if err < 0 {
        return err;
      }
      return 1;
    }

    /** fu05_event / fu0f_event: power-up unmutes and power-down mutes through DAPM. */
    method DapmMuteEvent(sw: Switch, event: DapmEvent) returns (ret: int)
      modifies this`regs, this`fu0f, this`fu05
      ensures ret == 0
      ensures event == OtherEvent ==> regs == old(regs) && fu0f == old(fu0f) && fu05 == old(fu05)
      ensures event != OtherEvent ==>
                State(sw) == old(State(sw)).(dapm := event == PrePmd)
                && (sw == Fu0fCapture ==> fu05 == old(fu05))
                && (sw == Fu05Playback ==> fu0f == old(fu0f))
      ensures event == PrePmd && Sdca(FuMute(FuOf(sw), CH_01)) !in stuck ==>
                Read(Sdca(FuMute(FuOf(sw), CH_01))) == 1
      ensures event == PrePmd && Sdca(FuMute(FuOf(sw), CH_01)) !in stuck && Sdca(FuMute(FuOf(sw), CH_02)) !in stuck ==>
                Read(Sdca(FuMute(FuOf(sw), CH_02))) == 1
    {
      if event == OtherEvent {
        return 0;
      }
      var st := State(sw).(dapm := event == PrePmd);
      if sw == Fu0fCapture {
        fu0f := st;
      } else {
        fu05 := st;
      }
      var _ := SetMuteCtl(sw);
      return 0;
    }

    // -------------------------------------------------------------------
    // Jack and buttons
    // -------------------------------------------------------------------

    /** The register that returns the UMP message to the device. */
    function OwnerReg(): Reg
    {
      if version == VA then Sdca(HidSetOwnerToDevice) else Sdca(HidCurrentOwner)
    }

    /** Byte i of the UMP message at the reported offset, as val & 0xff. */
    function HidByte(i: nat): nat
      reads this
    {
      Read(HidBuf(Read(Sdca(HidMessageOffset)) + i)) % U8_LIMIT
    }

    /** The buttons the pending UMP message reports, if the host owns it. */
    function PendingButtons(): set<Button>
      reads this
    {
      if Read(Sdca(HidCurrentOwner)) == 1 then {} else ButtonsOf(HidByte(0), HidByte(1), HidByte(2))
    }

    /**
     * button_detect: when the host owns the UMP message, reads its three
     * bytes, decodes them and, on owner 0, hands the message back.
     */
    method ButtonDetect() returns (btns: set<Button>)
      modifies this`regs
      ensures btns == old(PendingButtons())
      ensures old(Read(Sdca(HidCurrentOwner))) == 0 ==> regs == Written(old(regs), OwnerReg(), 1)
      ensures old(Read(Sdca(HidCurrentOwner))) != 0 ==> regs == old(regs)
      ensures regs == ButtonDetectRegs(old(regs))
    {
      var owner := Read(Sdca(HidCurrentOwner));
      if owner == 1 {
        return {};
      }
      var offset: nat := Read(Sdca(HidMessageOffset));
      var buf: seq<nat> := [];
      var idx := 0;
      while idx < 3
        invariant 0 <= idx <= 3 && |buf| == idx
        invariant forall i :: 0 <= i < idx ==> buf[i] == HidByte(i)
      {
        var val := Read(HidBuf(offset + idx));
        buf := buf + [val % U8_LIMIT];
        idx := idx + 1;
      }
      btns := ButtonsOf(buf[0], buf[1], buf[2]);
      if owner == 0 {
        var _ := Write(OwnerReg(), 1);
      }
    }

    /** The register map after button_detect, from the one before it. */
    function ButtonDetectRegs(m: map<Reg, u32>): map<Reg, u32>
    {
      if ReadIn(m, Sdca(HidCurrentOwner)) == 0 then Written(m, OwnerReg(), 1) else m
    }

    /** The register map after headset_detect, from the one before it. */
    function HeadsetDetectRegs(m: map<Reg, u32>): map<Reg, u32>
    {
      var mode := ReadIn(m, Sdca(DetectedMode));
      if mode == 0 then m else Written(m, Sdca(SelectedMode), mode)
    }

    /** Whether headset_detect would fail: a nonzero mode whose write-back is refused. */
    predicate HeadsetDetectFails()
      reads this
    {
      Read(Sdca(DetectedMode)) != 0 && Sdca(SelectedMode) in stuck
    }

    /** headset_detect: sets jack_type from detected_mode and writes a nonzero mode back. */
    method HeadsetDetect() returns (ret: int)
      modifies this`regs, this`jackType
      ensures jackType == JackTypeOf(old(Read(Sdca(DetectedMode))), old(jackType))
      ensures old(Read(Sdca(DetectedMode))) == 0 ==> regs == old(regs)
      ensures old(Read(Sdca(DetectedMode))) != 0 ==>
                regs == Written(old(regs), Sdca(SelectedMode), old(Read(Sdca(DetectedMode))))
      ensures ret == (if old(HeadsetDetectFails()) then -EIO else 0)
      ensures regs == HeadsetDetectRegs(old(regs))
    {
      var detMode := Read(Sdca(DetectedMode));
      jackType := JackTypeOf(detMode, jackType);
      if detMode != 0 {
        ret := Write(Sdca(SelectedMode), detMode);
        if ret < 0 {
          return ret;
        }
      }
      return 0;
    }

    /**
     * jack_detect_handler: optional headset detection, optional button
     * detection, then one report of jack and buttons and, when a button was
     * seen, a second report of its release.
     */
    method JackDetectHandler(hsJack: bool, instantiated: bool, jackIrq: bool, buttonIrq: bool)
      returns (reports: seq<Report>)
      modifies this`regs, this`jackType
      ensures !hsJack || !instantiated || (jackIrq && old(HeadsetDetectFails())) ==> reports == []
      ensures !hsJack || !instantiated ==> regs == old(regs) && jackType == old(jackType)
      ensures hsJack && instantiated && !(jackIrq && old(HeadsetDetectFails())) ==>
                var jack := if jackIrq then JackTypeOf(old(Read(Sdca(DetectedMode))), old(jackType)) else old(jackType);
                var btns := if buttonIrq && jack != JackNone then old(PendingButtons()) else {};
                jackType == jack
                && reports == [Report(jack, btns)] + (if btns != {} then [Report(jack, {})] else [])
      ensures hsJack && instantiated ==>
                var afterJack := if jackIrq then HeadsetDetectRegs(old(regs)) else old(regs);
                regs == if buttonIrq && !(jackIrq && old(HeadsetDetectFails())) then ButtonDetectRegs(afterJack) else afterJack
    {
      if !hsJack || !instantiated {
        return [];
      }
      if jackIrq {
        var ret := HeadsetDetect();
        if ret < 0 {
          return [];
        }
      }
      var btnType: set<Button> := {};
      if buttonIrq {
        btnType := ButtonDetect();
      }
      if jackType == JackNone {
        btnType := {};
      }
      reports := [Report(jackType, btnType)];
      if btnType != {} {
        reports := reports + [Report(jackType, {})];
      }
    }

    // -------------------------------------------------------------------
    // Stream parameters
    // -------------------------------------------------------------------

    /**
     * pcm_hw_params: checks the DAI and stream, hands the port to the
     * SoundWire core (whose answer is addSlaveRet), checks channels and rate
     * and writes the rate index to the DAI's sample-frequency controls.
     * rateCodes holds the four RT712_SDCA_RATE_* values.
     */
    method HwParams(dir: Direction, dai: Dai, rate: nat, channels: nat, hasStream: bool, hasSlave: bool,
                    addSlaveRet: int, rateCodes: seq<u32>) returns (ret: int, port: Option<nat>)
      requires |rateCodes| == 4
      modifies this`regs
      ensures ret == HwParamsResult(version, dir, dai, rate, channels, hasStream, hasSlave, addSlaveRet)
      ensures port == (if hasStream && hasSlave && !(dai == Aif3 && version == VA) then PortOf(dir, dai) else None)
      ensures ret == 0 ==> regs == WrittenAll(old(regs), SampleFreqCtls(dai), rateCodes[RateIndexOf(rate).value])
      ensures ret != 0 ==> regs == old(regs)
    {
      port := None;
      if !hasStream || !hasSlave {
        return -EINVAL, port;
      }
      if dai == Aif3 && version == VA {
        return -EINVAL, port;
      }
      port := PortOf(dir, dai);
      if port.None? {
        return -EINVAL, port;
      }
      if addSlaveRet != 0 {
        return addSlaveRet, port;
      }
      if channels > MAX_CHANNELS {
        return -EINVAL, port;
      }
      var idx := RateIndexOf(rate);
      if idx.None? {
        return -EINVAL, port;
      }
      var code := rateCodes[idx.value];
      ghost var m0 := regs;
      match dai {
        case Aif1 =>
          var _ := Write(Sdca(SampleFreqIndex(Cs01)), code);
          var _ := Write(Sdca(SampleFreqIndex(Cs11)), code);
          assert [Cs01, Cs11][1..] == [Cs11] && [Cs11][1..] == [];
        case Aif2 =>
          var _ := Write(Sdca(SampleFreqIndex(Cs31)), code);
          assert [Cs31][1..] == [];
        case Aif3 =>
          var _ := Write(Sdca(SampleFreqIndex(Cs1F)), code);
          var _ := Write(Sdca(SampleFreqIndex(Cs1C)), code);
          assert [Cs1F, Cs1C][1..] == [Cs1C] && [Cs1C][1..] == [];
      }

      return 0, port;
    }
  }
}
