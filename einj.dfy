// The input validation of the ACPI APEI error injector,
// drivers/acpi/apei/einj-core.c: the error-type check, the table header
// checks, the 128-bit component files, the EINJv2 component list, the
// firmware busy poll and the parameter checks made before an injection.
// The ACPI interpreter, firmware memory and debugfs are left out; what the
// code reads from them arrives as parameters.

module Einj {
  import opened Ints
  import opened Errno
  import opened Wrappers
  import opened Bits

  const COMPONENT_LEN: nat := 16
  const SLEEP_UNIT_MIN: nat := 1000
  /** One second, in microseconds. */
  const FIRMWARE_TIMEOUT: nat := 1_000_000
  const ACPI5_VENDOR_BIT: nat := 0x8000_0000
  /** GENMASK_ULL(63, 32) and GENMASK(30, 0). */
  const HIGH_HALF_MASK: nat := 0xffff_ffff_0000_0000
  const TYPE_MASK: nat := 0x7fff_ffff

  const SETWA_FLAGS_APICID: nat := 1
  const SETWA_FLAGS_MEM: nat := 2
  const SETWA_FLAGS_PCIE_SBDF: nat := 4
  const SETWA_FLAGS_EINJV2: nat := 8

  const EINJ_OP_BUSY: nat := 0x1
  const EINJ_STATUS_FAIL: nat := 0x1
  const EINJ_STATUS_INVAL: nat := 0x2

  // The ACPI_EINJ_* error type bits. They are defined in include/acpi/actbl1.h,
  // which is not part of this model; bits 0 to 11 are the ones listed in
  // einj_error_type_string.
  const PROCESSOR_CORRECTABLE: nat := 0x1
  const PROCESSOR_UNCORRECTABLE: nat := 0x2
  const PROCESSOR_FATAL: nat := 0x4
  const MEMORY_CORRECTABLE: nat := 0x8
  const MEMORY_UNCORRECTABLE: nat := 0x10
  const MEMORY_FATAL: nat := 0x20
  const PCIX_CORRECTABLE: nat := 0x40
  const PCIX_UNCORRECTABLE: nat := 0x80
  const PCIX_FATAL: nat := 0x100
  /** The three memory error types. */
  const MEM_ERROR_MASK: nat := 0x38
  /** The six CXL.cache and CXL.mem error types, bits 12 to 17. */
  const CXL_ERROR_MASK: nat := 0x3_f000

  // Structure sizes from include/acpi/actbl1.h and the page size; neither is
  // part of this model.
  const TRIGGER_HEADER_SIZE: nat := 16
  const EINJ_ENTRY_SIZE: nat := 32
  const ACPI_TABLE_HEADER_SIZE: nat := 36
  const EINJ_TABLE_SIZE: nat := 48
  const PAGE_SHIFT: nat := 12
  const PAGE_SIZE: nat := 0x1000

  lemma DivSpec(x: nat, d: nat, q: nat)
    requires d >= 1
    ensures q == x / d <==> q * d <= x < (q + 1) * d
  {
    if q * d <= x < (q + 1) * d {
      DivModUnique(x, d, q, x - q * d);
    }
  }

  // ---------------------------------------------------------------------
  // Error type
  // ---------------------------------------------------------------------

  /**
   * einj_validate_error_type: only the low 32 bits may be used, at most one
   * of bits 0..30 may be set, and a type without the vendor bit must share a
   * bit with the available (v1 or v2) types.
   */
  function ValidateErrorType(errorType: u64, available: u32, availableV2: u32): (err: int)
    ensures err == 0 || err == -EINVAL
  {
    if UsesHighHalf(errorType) then -EINVAL
    else if SeveralTypes(errorType) then -EINVAL
    else if Unavailable(errorType, available, availableV2) then -EINVAL
    else 0
  }

  /** `type & GENMASK_ULL(63, 32)` */
  predicate UsesHighHalf(errorType: u64)
  {
    And(errorType, HIGH_HALF_MASK) != 0
  }

  /** `tval & (tval - 1)` for `tval = type & GENMASK(30, 0)`, in u32 arithmetic. */
  predicate SeveralTypes(errorType: u64)
  {
    var tval := And(errorType, TYPE_MASK);
    And(tval, Wrap32(tval - 1)) != 0
  }

  /** Neither the vendor bit nor any available type bit is set. */
  predicate Unavailable(errorType: u64, available: u32, availableV2: u32)
  {
    And(errorType, ACPI5_VENDOR_BIT) == 0 && And(errorType, Or(available, availableV2)) == 0
  }

  /** The three rejections of einj_validate_error_type, stated bit by bit. */
  lemma ValidateErrorTypeMeaning(errorType: u64, available: u32, availableV2: u32)
    ensures ValidateErrorType(errorType, available, availableV2) == -EINVAL <==>
              errorType >= U32_LIMIT ||
              PopCount(errorType % 0x8000_0000) > 1 ||
              (Bit(errorType, 31) == 0 && And(errorType, available) == 0 && And(errorType, availableV2) == 0)
  {
    ErrorTypeBits(errorType);
    var several := PopCount(errorType % 0x8000_0000) > 1;
    assert SeveralTypes(errorType) == several by {
      OneTypeBit(errorType % 0x8000_0000);
    }
    var unavailable := Bit(errorType, 31) == 0 && And(errorType, available) == 0 && And(errorType, availableV2) == 0;
    assert Unavailable(errorType, available, availableV2) == unavailable by {
      AndOrZero(errorType, available, availableV2);
    }
  }

  /** The masks einj_validate_error_type applies, read as bounds and single bits. */
  lemma ErrorTypeBits(errorType: u64)
    ensures And(errorType, HIGH_HALF_MASK) != 0 <==> errorType >= U32_LIMIT
    ensures And(errorType, ACPI5_VENDOR_BIT) == 0 <==> Bit(errorType, 31) == 0
    ensures And(errorType, TYPE_MASK) == errorType % 0x8000_0000
  {
    Pow2Literals();
    MaskLiterals();
    HighBitsClear(errorType, 32, 64);
    LowBits(errorType, 31);
    SingleBit(errorType, 31);
  }

  lemma MaskLiterals()
    ensures Mask(64, 32) == HIGH_HALF_MASK && Mask(31, 0) == TYPE_MASK
  {
    Pow2Literals();
  }

  /** `tval & (tval - 1)`, in u32 arithmetic, is nonzero exactly when tval has two or more bits set. */
  lemma OneTypeBit(tval: nat)
    requires tval < 0x8000_0000
    ensures And(tval, Wrap32(tval - 1)) != 0 <==> PopCount(tval) > 1
  {
    if tval >= 1 {
      assert Wrap32(tval - 1) == tval - 1;
      ClearLowestBit(tval);
      PopCountPositive(tval);
    }
  }

  // ---------------------------------------------------------------------
  // Table headers
  // ---------------------------------------------------------------------

  datatype TriggerHeader = TriggerHeader(headerSize: u32, revision: u32, tableSize: u32, entryCount: u32)

  /** einj_check_trigger_header. */
  function CheckTriggerHeader(t: TriggerHeader): (err: int)
    ensures err == 0 || err == -EINVAL
  {
    if t.headerSize != TRIGGER_HEADER_SIZE then -EINVAL
    else if t.tableSize > PAGE_SIZE || t.tableSize < t.headerSize then -EINVAL
    else if t.entryCount != (t.tableSize - t.headerSize) / EINJ_ENTRY_SIZE then -EINVAL
    else 0
  }

  /**
   * A trigger table passes exactly when its header has the expected size,
   * the table fits in a page, and its entries fill the rest of the table up
   * to less than one entry.
   */
  lemma TriggerHeaderMeaning(t: TriggerHeader)
    ensures CheckTriggerHeader(t) == 0 <==>
              t.headerSize == TRIGGER_HEADER_SIZE && t.tableSize <= PAGE_SIZE &&
              t.headerSize + t.entryCount * EINJ_ENTRY_SIZE <= t.tableSize <
                t.headerSize + (t.entryCount + 1) * EINJ_ENTRY_SIZE
  {
    if t.tableSize >= t.headerSize {
      DivSpec(t.tableSize - t.headerSize, EINJ_ENTRY_SIZE, t.entryCount);
    }
  }

  datatype EinjTable = EinjTable(length: u32, headerLength: u32, entries: u32)

  /**
   * einj_check_table: header_length is either the size without the ACPI
   * table header or the full size, the table is at least one header long, and
   * the entry count matches the table length.
   */
  function CheckTable(t: EinjTable): (err: int)
    ensures err == 0 || err == -EINVAL
  {
    if t.headerLength != EINJ_TABLE_SIZE - ACPI_TABLE_HEADER_SIZE && t.headerLength != EINJ_TABLE_SIZE then -EINVAL
    else if t.length < EINJ_TABLE_SIZE then -EINVAL
    else if t.entries != (t.length - EINJ_TABLE_SIZE) / EINJ_ENTRY_SIZE then -EINVAL
    else 0
  }

  lemma CheckTableMeaning(t: EinjTable)
    ensures CheckTable(t) == 0 <==>
              (t.headerLength == 12 || t.headerLength == 48) &&
              EINJ_TABLE_SIZE + t.entries * EINJ_ENTRY_SIZE <= t.length <
                EINJ_TABLE_SIZE + (t.entries + 1) * EINJ_ENTRY_SIZE
  {
    if t.length >= EINJ_TABLE_SIZE {
      DivSpec(t.length - EINJ_TABLE_SIZE, EINJ_ENTRY_SIZE, t.entries);
    }
  }

  // ---------------------------------------------------------------------
  // 128-bit component files
  // ---------------------------------------------------------------------

  /** The value of a hexadecimal digit, in either case. */
  function HexValue(c: char): (v: Option<nat>)
    ensures v.Some? ==> v.value < 16
  {
    if '0' <= c <= '9' then Some(c as int - '0' as int)
    else if 'a' <= c <= 'f' then Some(c as int - 'a' as int + 10)
    else if 'A' <= c <= 'F' then Some(c as int - 'A' as int + 10)
    else None
  }

  /** A two-digit hexadecimal byte, as kstrtol(byte, 16) parses it. */
  function HexPair(hi: char, lo: char): Option<u8>
  {
    match (HexValue(hi), HexValue(lo))
    case (Some(h), Some(l)) => Some(16 * h + l)
    case _ => None
  }

  /** The lower-case digit printf's %x prints for v. */
  function HexChar(v: nat): char
    requires v < 16
  {
    if v < 10 then ('0' as int + v) as char else ('a' as int + v - 10) as char
  }

  lemma HexCharDigit(v: nat)
    requires v < 16
    ensures HexValue(HexChar(v)) == Some(v) && !('A' <= HexChar(v) <= 'F')
  {
  }

  /** "%.02x" for one byte. */
  function Hex2(b: u8): seq<char>
  {
    [HexChar(b / 16), HexChar(b % 16)]
  }

  /** The digits u128_read prints: the last byte first. */
  function HexDigits(b: seq<u8>): (s: seq<char>)
    ensures |s| == 2 * |b|
  {
    if |b| == 0 then [] else HexDigits(b[1..]) + Hex2(b[0])
  }

  /** The whole line u128_read produces. */
  function ReadLine(b: seq<u8>): seq<char>
  {
    HexDigits(b) + ['\n']
  }

  /**
   * u128_write's loop: pairs of digits are taken from the right end of d
   * into bytes 0, 1, ..., at most k of them, a lone leftover digit standing
   * for its pair with a '0' high digit.
   */
  function ParsePairs(d: seq<char>, k: nat): (r: Option<seq<u8>>)
    requires k >= 1
    ensures r.Some? ==> 1 <= |r.value| <= k
    decreases |d|
  {
    if |d| == 0 then None
    else
      var hi := if |d| >= 2 then d[|d| - 2] else '0';
      var rest := if |d| >= 2 then d[..|d| - 2] else [];
      match HexPair(hi, d[|d| - 1])
      case None => None
      case Some(v) =>
        if |rest| == 0 || k == 1 then Some([v])
        else
          match ParsePairs(rest, k - 1)
          case None => None
          case Some(vs) => Some([v] + vs)
  }

  function Zeros(n: nat): (z: seq<u8>)
    ensures |z| == n && forall i :: 0 <= i < n ==> z[i] == 0
  {
    if n == 0 then [] else Zeros(n - 1) + [0]
  }

  /** The 16 bytes a digit string stands for: the parsed bytes, then zeros. */
  function U128Value(d: seq<char>): (r: Option<seq<u8>>)
    ensures r.Some? ==> |r.value| == COMPONENT_LEN
  {
    match ParsePairs(d, COMPONENT_LEN)
    case None => None
    case Some(v) => Some(v + Zeros(COMPONENT_LEN - |v|))
  }

  /** The size of u128_write's input buffer: a "0x" prefix, 32 digits, a newline and a NUL. */
  const INPUT_SIZE: nat := 2 + 2 * COMPONENT_LEN + 2

  /** What simple_write_to_buffer copies into the input buffer from offset 0. */
  function InputOf(buf: seq<char>): seq<char>
  {
    if |buf| <= INPUT_SIZE then buf else buf[..INPUT_SIZE]
  }

  predicate HasPrefix(input: seq<char>)
  {
    |input| >= 2 && input[0] == '0' && (input[1] == 'x' || input[1] == 'X')
  }

  /** The digits of a line ending in a newline, without its "0x" prefix. */
  function DigitsOf(input: seq<char>): seq<char>
    requires |input| >= 2 && input[|input| - 1] == '\n'
  {
    input[if HasPrefix(input) then 2 else 0..|input| - 1]
  }

  /** The return value of u128_write. */
  function U128WriteResult(buf: seq<char>, off: nat): int
  {
    var input := InputOf(buf);
    if off != 0 then -EINVAL
    else if |input| < 1 || input[|input| - 1] != '\n' then -EINVAL
    else if |input| == 1 then 1
    else if U128Value(DigitsOf(input)).None? then -EINVAL
    else |input|
  }

  /** The 16 bytes after u128_write: all 0xFF for an empty line, the value, or unchanged. */
  function U128WriteSave(save: seq<u8>, buf: seq<char>, off: nat): seq<u8>
  {
    var input := InputOf(buf);
    if off != 0 || |input| < 1 || input[|input| - 1] != '\n' then save
    else if |input| == 1 then seq(COMPONENT_LEN, _ => 0xff)
    else match U128Value(DigitsOf(input))
      case None => save
      case Some(v) => v
  }

  function Prepend(tmp: seq<u8>, r: Option<seq<u8>>): Option<seq<u8>>
  {
    match r
    case None => None
    case Some(v) => Some(tmp + v)
  }

  /**
   * u128_write: the line is parsed into a scratch buffer and copied to the
   * component only if every digit pair is valid.
   */
  method U128Write(save: array<u8>, buf: seq<char>, off: nat) returns (r: int)
    requires save.Length == COMPONENT_LEN
    modifies save
    ensures r == U128WriteResult(buf, off)
    ensures save[..] == U128WriteSave(old(save[..]), buf, off)
  {
    if off != 0 {
      return -EINVAL;
    }
    var input := InputOf(buf);
    var c := |input|;
    if c < 1 || input[c - 1] != '\n' {
      return -EINVAL;
    }
    if c == 1 {
      forall j | 0 <= j < COMPONENT_LEN {
        save[j] := 0xff;
      }
      return c;
    }
    var s := if input[0] == '0' && (input[1] == 'x' || input[1] == 'X') then 2 else 0;
    assert input[s..c - 1] == DigitsOf(input);
    var parsed := ParseDigits(input, s);
    if parsed.None? {
      return -EINVAL;
    }
    var tmp := parsed.value;
    var i := |tmp|;
    while i < COMPONENT_LEN
      invariant |parsed.value| <= i == |tmp| <= COMPONENT_LEN
      invariant tmp == parsed.value + Zeros(i - |parsed.value|)
    {
      tmp := tmp + [0];
      i := i + 1;
    }
    forall j | 0 <= j < COMPONENT_LEN {
      save[j] := tmp[j];
    }
    assert save[..] == tmp;
    return c;
  }

  /**
   * u128_write's loop over the digits input[s..|input|-1]: pairs are read
   * from the right into bytes 0, 1, ..., a lone leftover digit standing for
   * its pair with a '0' high digit; an empty digit string fails on the
   * prefix character before it.
   */
  method ParseDigits(input: seq<char>, s: nat) returns (r: Option<seq<u8>>)
    requires 2 <= |input| && s <= |input| - 1
    requires s == 0 || (s == 2 && HexValue(input[1]).None?)
    ensures r == ParsePairs(input[s..|input| - 1], COMPONENT_LEN)
  {
    var e := |input| - 1;
    var tmp: seq<u8> := [];
    var i := 0;
    ParseStart(input, s);
    while true
      invariant 0 <= i < COMPONENT_LEN && |tmp| == i
      invariant s <= e <= |input| - 1
      invariant e == s ==> i == 0 && s == 2
      invariant ParsedSoFar(input, s, tmp, e)
      decreases COMPONENT_LEN - i
    {
      ghost var E := e;
      e := e - 1;
      var lo := input[e];
      var hi := '0';
      if e > s {
        e := e - 1;
        hi := input[e];
      }
      var v := HexPair(hi, lo);
      ParseStep(input, s, tmp, E, e, hi, lo);
      if v.None? {
        return None;
      }
      if e <= s || i + 1 == COMPONENT_LEN {
        return Some(tmp + [v.value]);
      }
      tmp := tmp + [v.value];
      i := i + 1;
    }
  }

  /** The loop's invariant: the bytes so far, then whatever input[s..e] parses to, make up the whole parse. */
  ghost predicate ParsedSoFar(input: seq<char>, s: nat, tmp: seq<u8>, e: nat)
    requires s <= e <= |input| - 1 && |tmp| < COMPONENT_LEN
  {
    ParsePairs(input[s..|input| - 1], COMPONENT_LEN) == Prepend(tmp, ParsePairs(input[s..e], COMPONENT_LEN - |tmp|))
  }

  lemma ParseStart(input: seq<char>, s: nat)
    requires 2 <= |input| && s <= |input| - 1
    ensures ParsedSoFar(input, s, [], |input| - 1)
  {
    PrependAssoc([], [], ParsePairs(input[s..|input| - 1], COMPONENT_LEN));
  }

  /**
   * One pass of the loop, from end E back to e2 with digits hi and lo: a bad
   * pair fails the parse, the last pair ends it, any other pair is kept.
   */
  lemma ParseStep(input: seq<char>, s: nat, tmp: seq<u8>, E: nat, e2: int, hi: char, lo: char)
    requires s <= E <= |input| - 1 && |tmp| < COMPONENT_LEN && ParsedSoFar(input, s, tmp, E)
    requires E == s ==> |tmp| == 0 && s == 2 && HexValue(input[1]).None?
    requires 1 <= E && lo == input[E - 1]
    requires E - 1 > s ==> e2 == E - 2 && hi == input[E - 2]
    requires E - 1 <= s ==> e2 == E - 1 && hi == '0'
    ensures HexPair(hi, lo).None? ==> ParsePairs(input[s..|input| - 1], COMPONENT_LEN) == None
    ensures HexPair(hi, lo).Some? && (e2 <= s || |tmp| + 1 == COMPONENT_LEN) ==>
              ParsePairs(input[s..|input| - 1], COMPONENT_LEN) == Some(tmp + [HexPair(hi, lo).value])
    ensures HexPair(hi, lo).Some? && !(e2 <= s || |tmp| + 1 == COMPONENT_LEN) ==>
              s <= e2 && ParsedSoFar(input, s, tmp + [HexPair(hi, lo).value], e2)
  {
    if E == s {
      assert |input[s..E]| == 0;
    } else {
      ParsePairStep(input, s, tmp, E, e2, hi, lo);
    }
  }

  lemma ParsePairStep(input: seq<char>, s: nat, tmp: seq<u8>, E: nat, e2: int, hi: char, lo: char)
    requires s < E <= |input| - 1 && |tmp| < COMPONENT_LEN && ParsedSoFar(input, s, tmp, E)
    requires lo == input[E - 1]
    requires E - 1 > s ==> e2 == E - 2 && hi == input[E - 2]
    requires E - 1 <= s ==> e2 == E - 1 && hi == '0'
    ensures HexPair(hi, lo).None? ==> ParsePairs(input[s..|input| - 1], COMPONENT_LEN) == None
    ensures HexPair(hi, lo).Some? && (e2 <= s || |tmp| + 1 == COMPONENT_LEN) ==>
              ParsePairs(input[s..|input| - 1], COMPONENT_LEN) == Some(tmp + [HexPair(hi, lo).value])
    ensures HexPair(hi, lo).Some? && !(e2 <= s || |tmp| + 1 == COMPONENT_LEN) ==>
              s <= e2 && ParsedSoFar(input, s, tmp + [HexPair(hi, lo).value], e2)
  {
    var k := COMPONENT_LEN - |tmp|;
    PairStep(input, s, E, k);
    var v := HexPair(hi, lo);
    if v.Some? && !(e2 <= s || |tmp| + 1 == COMPONENT_LEN) {
      KeepPair(ParsePairs(input[s..|input| - 1], COMPONENT_LEN), tmp, ParsePairs(input[s..E], k),
               v.value, ParsePairs(input[s..E - 2], k - 1));
      assert |tmp + [v.value]| == |tmp| + 1;
    }
  }

  lemma KeepPair(whole: Option<seq<u8>>, tmp: seq<u8>, cur: Option<seq<u8>>, v: u8, rest: Option<seq<u8>>)
    requires whole == Prepend(tmp, cur) && cur == Prepend([v], rest)
    ensures whole == Prepend(tmp + [v], rest)
  {
    PrependAssoc(tmp, [v], rest);
  }

  lemma PrependAssoc(a: seq<u8>, b: seq<u8>, r: Option<seq<u8>>)
    ensures Prepend(a, Prepend(b, r)) == Prepend(a + b, r)
    ensures Prepend([], r) == r
  {
    if r.Some? {
      assert a + (b + r.value) == (a + b) + r.value;
      assert [] + r.value == r.value;
    }
  }

  /** One pass of u128_write's loop over the digits input[s..E]. */
  lemma PairStep(input: seq<char>, s: nat, E: nat, k: nat)
    requires s < E <= |input| && k >= 1
    ensures var lo := input[E - 1];
            var hi := if E - s >= 2 then input[E - 2] else '0';
            ParsePairs(input[s..E], k) ==
              match HexPair(hi, lo)
              case None => None
              case Some(v) =>
                if E - s <= 2 || k == 1 then Some([v]) else Prepend([v], ParsePairs(input[s..E - 2], k - 1))
  {
    var cur := input[s..E];
    if E - s >= 2 {
      assert cur[..|cur| - 2] == input[s..E - 2];
    }
  }

  /** Byte 0 of a component comes from the last digit pair, and so on leftwards. */
  lemma {:induction false} ParseHexDigits(b: seq<u8>, k: nat)
    requires 1 <= |b| <= k
    ensures ParsePairs(HexDigits(b), k) == Some(b)
    decreases |b|
  {
    var d := HexDigits(b);
    HexPairOfHex2(b[0]);
    assert d[..|d| - 2] == HexDigits(b[1..]);
    assert d[|d| - 2] == Hex2(b[0])[0] && d[|d| - 1] == Hex2(b[0])[1];
    if |b| > 1 {
      ParseHexDigits(b[1..], k - 1);
      assert [b[0]] + b[1..] == b;
    } else {
      assert d[..|d| - 2] == [];
      assert b == [b[0]];
    }
  }

  lemma HexPairOfHex2(b: u8)
    ensures HexPair(Hex2(b)[0], Hex2(b)[1]) == Some(b)
  {
  }

  /** Writing back what u128_read printed restores the component. */
  lemma WriteAfterRead(save: seq<u8>, b: seq<u8>)
    requires |b| == COMPONENT_LEN
    ensures U128WriteResult(ReadLine(b), 0) == 2 * COMPONENT_LEN + 1
    ensures U128WriteSave(save, ReadLine(b), 0) == b
  {
    var line := ReadLine(b);
    assert InputOf(line) == line;
    HexDigitsNoX(b);
    assert !HasPrefix(line);
    assert DigitsOf(line) == HexDigits(b);
    ParseHexDigits(b, COMPONENT_LEN);
  }

  /**
   * simple_read_from_buffer over a buffer: nothing at or past its end,
   * otherwise at most count bytes from offset off.
   */
  function ReadAt(line: seq<char>, count: nat, off: nat): (r: seq<char>)
    ensures |r| <= count
    ensures off >= |line| ==> r == []
    ensures off < |line| ==> |r| == Min(count, |line| - off)
    ensures forall i :: 0 <= i < |r| ==> r[i] == line[off + i]
  {
    if off >= |line| then [] else line[off..off + Min(count, |line| - off)]
  }

  /** u128_read: prints the 16 bytes as 32 hex digits, last byte first, and a newline. */
  method U128Read(data: array<u8>, count: nat, off: nat) returns (out: seq<char>, newOff: nat)
    requires data.Length == COMPONENT_LEN
    ensures out == ReadAt(ReadLine(data[..]), count, off)
    ensures newOff == off + |out|
  {
    if off >= 2 * COMPONENT_LEN + 1 {
      return [], off;
    }
    var output: seq<char> := [];
    var i := 0;
    while i < COMPONENT_LEN
      invariant 0 <= i <= COMPONENT_LEN
      invariant output == HexDigits(data[COMPONENT_LEN - i..])
    {
      assert data[COMPONENT_LEN - i - 1..][1..] == data[COMPONENT_LEN - i..];
      output := output + Hex2(data[COMPONENT_LEN - i - 1]);
      i := i + 1;
    }
    assert data[0..] == data[..];
    output := output + ['\n'];
    var n := Min(count, |output| - off);
    out := output[off..off + n];
    newOff := off + n;
  }

  /** Reading the line in two consecutive parts gives the same text as one read. */
  lemma ReadAtSplit(line: seq<char>, n: nat, m: nat, off: nat)
    ensures ReadAt(line, n, off) + ReadAt(line, m, off + |ReadAt(line, n, off)|) == ReadAt(line, n + m, off)
  {
    var a := ReadAt(line, n, off);
    if off < |line| && |a| == n {
      assert line[off..off + n] + line[off + n..off + n + Min(m, |line| - off - n)]
          == line[off..off + n + Min(m, |line| - off - n)];
    }
  }

  /** A read from offset 0 of at least 33 bytes returns the whole line, lower-case digits and newline. */
  lemma {:induction false} ReadLineDigits(b: seq<u8>)
    ensures |ReadLine(b)| == 2 * |b| + 1 && ReadLine(b)[2 * |b|] == '\n'
    ensures forall i :: 0 <= i < 2 * |b| ==> HexValue(ReadLine(b)[i]).Some? && !('A' <= ReadLine(b)[i] <= 'F')
    decreases |b|
  {
    if |b| > 0 {
      ReadLineDigits(b[1..]);
      var line := ReadLine(b);
      var n := 2 * |b[1..]|;
      assert line == HexDigits(b[1..]) + Hex2(b[0]) + ['\n'];
      assert ReadLine(b[1..]) == HexDigits(b[1..]) + ['\n'];
      HexCharDigit(b[0] / 16);
      HexCharDigit(b[0] % 16);
      assert line[n] == HexChar(b[0] / 16) && line[n + 1] == HexChar(b[0] % 16);
      forall i | 0 <= i < n
        ensures line[i] == ReadLine(b[1..])[i]
      {
      }
    }
  }

  /** The lower-case form of a character, for the ASCII letters A to F. */
  function Lower(c: char): char
  {
    if 'A' <= c <= 'F' then (c as int - 'A' as int + 'a' as int) as char else c
  }

  predicate AllHex(d: seq<char>)
  {
    forall i :: 0 <= i < |d| ==> HexValue(d[i]).Some?
  }

  lemma HexCharOfValue(c: char)
    requires HexValue(c).Some?
    ensures HexChar(HexValue(c).value) == Lower(c)
  {
  }

  lemma Hex2OfPair(hi: char, lo: char)
    requires HexValue(hi).Some? && HexValue(lo).Some?
    ensures HexPair(hi, lo).Some? && Hex2(HexPair(hi, lo).value) == [Lower(hi), Lower(lo)]
  {
    var h := HexValue(hi).value;
    var l := HexValue(lo).value;
    HexCharOfValue(hi);
    HexCharOfValue(lo);
    DivModUnique(16 * h + l, 16, h, l);
  }

  /** An even number of hex digits parses to bytes that u128_read prints back in lower case. */
  lemma {:induction false} PrintParsed(d: seq<char>, k: nat)
    requires |d| == 2 * k && k >= 1 && AllHex(d)
    ensures ParsePairs(d, k).Some?
    ensures |ParsePairs(d, k).value| == k
    ensures HexDigits(ParsePairs(d, k).value) == seq(|d|, i requires 0 <= i < |d| => Lower(d[i]))
    decreases k
  {
    var hi := d[|d| - 2];
    var lo := d[|d| - 1];
    var rest := d[..|d| - 2];
    Hex2OfPair(hi, lo);
    var b := HexPair(hi, lo).value;
    if k == 1 {
      assert |rest| == 0;
      assert ParsePairs(d, k) == Some([b]);
      assert HexDigits([b]) == HexDigits([]) + Hex2(b);
    } else {
      PrintParsed(rest, k - 1);
      var vs := ParsePairs(rest, k - 1).value;
      assert ParsePairs(d, k) == Some([b] + vs);
      var v := [b] + vs;
      assert v[1..] == vs;
      assert HexDigits(v) == HexDigits(vs) + [Lower(hi), Lower(lo)];
    }
  }

  /**
   * Writing 32 hex digits, with or without a 0x prefix, and reading the
   * component back gives the same digits in lower case.
   */
  lemma ReadAfterWrite(save: seq<u8>, prefix: seq<char>, d: seq<char>)
    requires prefix == [] || prefix == ['0', 'x'] || prefix == ['0', 'X']
    requires |d| == 2 * COMPONENT_LEN && AllHex(d)
    ensures U128WriteResult(prefix + d + ['\n'], 0) == |prefix| + 2 * COMPONENT_LEN + 1
    ensures ReadLine(U128WriteSave(save, prefix + d + ['\n'], 0)) == seq(|d|, i requires 0 <= i < |d| => Lower(d[i])) + ['\n']
  {
    var input := prefix + d + ['\n'];
    assert InputOf(input) == input;
    assert HasPrefix(input) <==> prefix != [] by {
      if prefix == [] {
        assert input[1] == d[1];
      }
    }
    assert DigitsOf(input) == d;
    PrintParsed(d, COMPONENT_LEN);
    assert Zeros(0) == [];
    assert ParsePairs(d, COMPONENT_LEN).value + Zeros(0) == ParsePairs(d, COMPONENT_LEN).value;
  }

  lemma {:induction false} HexDigitsNoX(b: seq<u8>)
    ensures forall i :: 0 <= i < |HexDigits(b)| ==> HexDigits(b)[i] != 'x' && HexDigits(b)[i] != 'X'
    decreases |b|
  {
    if |b| > 0 {
      HexDigitsNoX(b[1..]);
    }
  }

  // ---------------------------------------------------------------------
  // EINJv2 components
  // ---------------------------------------------------------------------

  /** An EINJv2 component: its id and its syndrome, 16 bytes each. */
  datatype Syndrome = Syndrome(compId: seq<u8>, compSynd: seq<u8>)

  /** is_end_of_list's condition: an id of all 0xFF bytes ends the list. */
  predicate EndOfList(id: seq<u8>)
  {
    forall j :: 0 <= j < |id| ==> id[j] == 0xff
  }

  /** An empty line written to a component id ends the list there. */
  lemma EmptyLineEndsList(save: seq<u8>)
    ensures EndOfList(U128WriteSave(save, ['\n'], 0))
  {
  }

  /** is_end_of_list. */
  method IsEndOfList(id: seq<u8>) returns (b: bool)
    requires |id| == COMPONENT_LEN
    ensures b <==> EndOfList(id)
  {
    var i := 0;
    while i < COMPONENT_LEN
      invariant 0 <= i <= COMPONENT_LEN
      invariant forall j :: 0 <= j < i ==> id[j] == 0xff
    {
      if id[i] != 0xff {
        return false;
      }
      i := i + 1;
    }
    return true;
  }

  /**
   * The EINJv2 copy in __einj_error_inject: components are copied in order
   * until one whose id ends the list, or until max_nr_components.
   */
  method CopyComponents(syndromes: seq<Syndrome>, maxNr: nat) returns (arr: seq<Syndrome>, count: nat)
    requires maxNr <= |syndromes|
    requires forall j :: 0 <= j < |syndromes| ==> |syndromes[j].compId| == COMPONENT_LEN
    ensures count <= maxNr && arr == syndromes[..count]
    ensures forall j :: 0 <= j < count ==> !EndOfList(syndromes[j].compId)
    ensures count < maxNr ==> EndOfList(syndromes[count].compId)
  {
    arr := [];
    count := 0;
    while count < maxNr
      invariant count <= maxNr && arr == syndromes[..count]
      invariant forall j :: 0 <= j < count ==> !EndOfList(syndromes[j].compId)
    {
      var end := IsEndOfList(syndromes[count].compId);
      if end {
        break;
      }
      arr := arr + [syndromes[count]];
      count := count + 1;
    }
  }

  // ---------------------------------------------------------------------
  // Firmware busy poll
  // ---------------------------------------------------------------------

  /** einj_timedout: below one sleep unit (as a signed value) the budget is spent. */
  function Timedout(t: u64): (r: (bool, u64))
    ensures r.0 <==> t < SLEEP_UNIT_MIN || t >= 0x8000_0000_0000_0000
    ensures r.1 == if r.0 then t else t - SLEEP_UNIT_MIN
  {
    var signed := if t >= 0x8000_0000_0000_0000 then t - U64_LIMIT else t;
    if signed < SLEEP_UNIT_MIN then (true, t) else (false, t - SLEEP_UNIT_MIN)
  }

  /** FIRMWARE_TIMEOUT / SLEEP_UNIT_MIN: the sleeps the budget allows. */
  const MAX_SLEEPS: nat := 1000

  /** One CHECK_BUSY_STATUS action: the interpreter's return code and output. */
  datatype PollReply = PollReply(rc: int, val: nat)

  predicate Busy(r: PollReply)
  {
    r.rc == 0 && Bit(r.val, 0) == 1
  }

  /**
   * The busy poll of __einj_error_inject. poll(k) is the k-th busy-status
   * check; between checks the code sleeps one unit of its one-second budget.
   */
  method BusyPoll(poll: nat -> PollReply) returns (rc: int, sleeps: nat)
    ensures sleeps <= MAX_SLEEPS
    ensures forall j :: 0 <= j < sleeps ==> Busy(poll(j))
    ensures poll(sleeps).rc != 0 ==> rc == poll(sleeps).rc
    ensures poll(sleeps).rc == 0 && Bit(poll(sleeps).val, 0) == 0 ==> rc == 0
    ensures Busy(poll(sleeps)) ==> sleeps == MAX_SLEEPS && rc == -EIO
  {
    var timeout: u64 := FIRMWARE_TIMEOUT;
    sleeps := 0;
    while true
      invariant timeout == FIRMWARE_TIMEOUT - sleeps * SLEEP_UNIT_MIN
      invariant sleeps <= MAX_SLEEPS
      invariant forall j :: 0 <= j < sleeps ==> Busy(poll(j))
      decreases timeout
    {
      var r := poll(sleeps);
      if r.rc != 0 {
        return r.rc, sleeps;
      }
      SingleBit(r.val, 0);
      if And(r.val, EINJ_OP_BUSY) == 0 {
        return 0, sleeps;
      }
      assert Busy(r);
      var step := Timedout(timeout);
      if step.0 {
        return -EIO, sleeps;
      }
      timeout := step.1;
      sleeps := sleeps + 1;
    }
  }

  /** The GET_COMMAND_STATUS verdict. */
  function CommandStatus(val: nat): (err: int)
    ensures err == 0 <==> val != EINJ_STATUS_FAIL && val != EINJ_STATUS_INVAL
  {
    if val == EINJ_STATUS_FAIL then -EBUSY
    else if val == EINJ_STATUS_INVAL then -EINVAL
    else 0
  }

  // ---------------------------------------------------------------------
  // Injection parameters
  // ---------------------------------------------------------------------

  /** struct set_error_type_with_address, with the EINJv2 component array. */
  datatype V5Param = V5Param(
    errorType: u32, vendorExtension: u32, flags: u32, apicid: u32,
    memoryAddress: u64, memoryAddressRange: u64, pcieSbdf: u32,
    components: seq<Syndrome>, componentCount: u16)

  predicate IsProcessorType(t: nat) { t == PROCESSOR_CORRECTABLE || t == PROCESSOR_UNCORRECTABLE || t == PROCESSOR_FATAL }
  predicate IsMemoryType(t: nat) { t == MEMORY_CORRECTABLE || t == MEMORY_UNCORRECTABLE || t == MEMORY_FATAL }
  predicate IsPcixType(t: nat) { t == PCIX_CORRECTABLE || t == PCIX_UNCORRECTABLE || t == PCIX_FATAL }

  /**
   * The ACPI 5 parameter block __einj_error_inject writes: `cur` is what the
   * firmware block held. The vendor bit takes the vendor flags; explicit
   * flags take the address and either the EINJv2 components or the APIC id
   * and SBDF; otherwise the error type alone picks the target field.
   */
  method FillV5Param(cur: V5Param, errorType: u32, flags: u32, param1: u64, param2: u64,
                     param3: u64, param4: u64, vendorFlags: u32, isV2: bool,
                     syndromes: seq<Syndrome>, maxNr: nat) returns (v: V5Param)
    requires maxNr <= |syndromes|
    requires forall j :: 0 <= j < |syndromes| ==> |syndromes[j].compId| == COMPONENT_LEN
    requires maxNr < U16_LIMIT
    ensures v.errorType == errorType && v.vendorExtension == cur.vendorExtension
    ensures And(errorType, ACPI5_VENDOR_BIT) != 0 ==>
              v.flags == vendorFlags && v.components == cur.components &&
              v.apicid == (if vendorFlags == SETWA_FLAGS_APICID then Wrap32(param1) else cur.apicid) &&
              v.memoryAddress == (if vendorFlags == SETWA_FLAGS_MEM then param1 else cur.memoryAddress) &&
              v.memoryAddressRange == (if vendorFlags == SETWA_FLAGS_MEM then param2 else cur.memoryAddressRange) &&
              v.pcieSbdf == (if vendorFlags == SETWA_FLAGS_PCIE_SBDF then Wrap32(param1) else cur.pcieSbdf)
    ensures And(errorType, ACPI5_VENDOR_BIT) == 0 && flags != 0 ==>
              v.flags == flags && v.memoryAddress == param1 && v.memoryAddressRange == param2 &&
              (isV2 ==>
                 v.componentCount <= maxNr && v.componentCount <= |v.components| && v.apicid == cur.apicid && v.pcieSbdf == cur.pcieSbdf &&
                 v.components[..v.componentCount] == syndromes[..v.componentCount] &&
                 (forall j :: 0 <= j < v.componentCount ==> !EndOfList(syndromes[j].compId)) &&
                 (v.componentCount < maxNr ==> EndOfList(syndromes[v.componentCount].compId))) &&
              (!isV2 ==> v.apicid == Wrap32(param3) && v.pcieSbdf == Wrap32(param4) && v.components == cur.components)
    ensures And(errorType, ACPI5_VENDOR_BIT) == 0 && flags == 0 ==>
              v.components == cur.components &&
              (IsProcessorType(errorType) ==> v.flags == SETWA_FLAGS_APICID && v.apicid == Wrap32(param1)) &&
              (IsMemoryType(errorType) ==>
                 v.flags == SETWA_FLAGS_MEM && v.memoryAddress == param1 && v.memoryAddressRange == param2) &&
              (IsPcixType(errorType) ==> v.flags == SETWA_FLAGS_PCIE_SBDF && v.pcieSbdf == Wrap32(param1)) &&
              (!IsProcessorType(errorType) && !IsMemoryType(errorType) && !IsPcixType(errorType) ==>
                 v == cur.(errorType := errorType))
  {
    v := cur.(errorType := errorType);
    if And(errorType, ACPI5_VENDOR_BIT) != 0 {
      if vendorFlags == SETWA_FLAGS_APICID {
        v := v.(apicid := Wrap32(param1));
      } else if vendorFlags == SETWA_FLAGS_MEM {
        v := v.(memoryAddress := param1, memoryAddressRange := param2);
      } else if vendorFlags == SETWA_FLAGS_PCIE_SBDF {
        v := v.(pcieSbdf := Wrap32(param1));
      }
      v := v.(flags := vendorFlags);
    } else if flags != 0 {
      v := v.(flags := flags, memoryAddress := param1, memoryAddressRange := param2);
      if isV2 {
        var arr, count := CopyComponents(syndromes, maxNr);
        var tail := if count <= |v.components| then v.components[count..] else [];
        v := v.(components := arr + tail, componentCount := count);
        assert v.components[..count] == arr;
      } else {
        v := v.(apicid := Wrap32(param3), pcieSbdf := Wrap32(param4));
      }
    } else {
      if IsProcessorType(errorType) {
        v := v.(apicid := Wrap32(param1), flags := SETWA_FLAGS_APICID);
      } else if IsMemoryType(errorType) {
        v := v.(memoryAddress := param1, memoryAddressRange := param2, flags := SETWA_FLAGS_MEM);
      } else if IsPcixType(errorType) {
        v := v.(pcieSbdf := Wrap32(param1), flags := SETWA_FLAGS_PCIE_SBDF);
      }
    }
  }

  /** The verdict of the checks in einj_error_inject before the mutex is taken. */
  datatype InjectCheck = Reject(err: int) | Inject

  /** einj_is_cxl_error_type. */
  predicate IsCxlErrorType(errorType: nat)
  {
    And(errorType, CXL_ERROR_MASK) != 0 && And(errorType, ACPI5_VENDOR_BIT) == 0
  }

  /** ~(SETWA_FLAGS_APICID | SETWA_FLAGS_MEM | SETWA_FLAGS_PCIE_SBDF | SETWA_FLAGS_EINJV2) as a u32. */
  function FlagsOutsideMask(): nat { Mask(32, 4) }

  /** PAGE_MASK on a 64-bit kernel. */
  function PageMask(): nat { Mask(64, PAGE_SHIFT) }

  /**
   * einj_error_inject's checks. `regionOk(base, size)` is the outcome of the
   * region_intersects and arch_is_platform_page tests for the masked range
   * and `zeroPfn(pfn)` is is_zero_pfn; neither is part of this model.
   */
  function ErrorInjectCheck(errorType: u32, flags: u32, param1: u64, param2: u64,
                            isV2: bool, availableV2: u32, paramExtension: bool, acpi5: bool,
                            vendorFlags: u32, regionOk: (nat, nat) -> bool, zeroPfn: nat -> bool): (r: InjectCheck)
    ensures r == Inject || r == Reject(-EINVAL) || r == Reject(-EADDRINUSE)
    ensures r == Reject(-EADDRINUSE) ==> (paramExtension || acpi5) && zeroPfn(And(param1, param2) / PAGE_SIZE)
    ensures isV2 && And(errorType, availableV2) == 0 ==> r == Reject(-EINVAL)
  {
    if flags != 0 && And(flags, FlagsOutsideMask()) != 0 then Reject(-EINVAL)
    else if isV2 && And(errorType, availableV2) == 0 then Reject(-EINVAL)
    else if !(paramExtension || acpi5) then Inject
    else if And(errorType, ACPI5_VENDOR_BIT) != 0 && vendorFlags != SETWA_FLAGS_MEM then Inject
    else if And(errorType, ACPI5_VENDOR_BIT) == 0 && And(errorType, MEM_ERROR_MASK) == 0 &&
            And(flags, SETWA_FLAGS_MEM) == 0 then Inject
    else if IsCxlErrorType(errorType) && And(flags, SETWA_FLAGS_MEM) != 0 then Reject(-EINVAL)
    else
      var base := And(param1, param2);
      var size := (U64_LIMIT - param2) % U64_LIMIT;
      if And(param2, PageMask()) != PageMask() || !regionOk(base, size) then Reject(-EINVAL)
      else if zeroPfn(base / PAGE_SIZE) then Reject(-EADDRINUSE)
      else Inject
  }

  /** Flags outside the four SETWA flags are refused. */
  lemma UnknownFlagsRejected(errorType: u32, flags: u32, param1: u64, param2: u64,
                             isV2: bool, availableV2: u32, paramExtension: bool, acpi5: bool,
                             vendorFlags: u32, regionOk: (nat, nat) -> bool, zeroPfn: nat -> bool)
    ensures flags >= 16 <==>
              flags != 0 && And(flags, FlagsOutsideMask()) != 0
    ensures flags >= 16 ==>
              ErrorInjectCheck(errorType, flags, param1, param2, isV2, availableV2, paramExtension,
                               acpi5, vendorFlags, regionOk, zeroPfn) == Reject(-EINVAL)
  {
    Pow2Literals();
    assert Pow2(4) == 16;
    HighBitsClear(flags, 4, 32);
  }

  /** In EINJv2 mode a type the firmware does not list is refused. */
  lemma UnavailableV2Rejected(errorType: u32, flags: u32, param1: u64, param2: u64,
                              availableV2: u32, paramExtension: bool, acpi5: bool,
                              vendorFlags: u32, regionOk: (nat, nat) -> bool, zeroPfn: nat -> bool)
    requires And(errorType, availableV2) == 0
    ensures ErrorInjectCheck(errorType, flags, param1, param2, true, availableV2, paramExtension,
                             acpi5, vendorFlags, regionOk, zeroPfn).Reject?
  {
  }

  /**
   * A CXL memory injection is refused here once the parameters are in use:
   * it must go through einj_cxl_rch_error_inject, which accepts exactly those.
   */
  lemma CxlMemoryRejected(errorType: u32, flags: u32, param1: u64, param2: u64,
                          isV2: bool, availableV2: u32, paramExtension: bool, acpi5: bool,
                          vendorFlags: u32, regionOk: (nat, nat) -> bool, zeroPfn: nat -> bool)
    requires paramExtension || acpi5
    requires IsCxlErrorType(errorType) && Bit(flags, 1) == 1
    ensures ErrorInjectCheck(errorType, flags, param1, param2, isV2, availableV2, paramExtension,
                             acpi5, vendorFlags, regionOk, zeroPfn) == Reject(-EINVAL)
    ensures CxlRchCheck(errorType, flags) == Inject
  {
    SingleBit(flags, 1);
  }

  /**
   * A memory injection whose address mask leaves any of bits 12..63 clear
   * gives the firmware more than a page to choose from, and is refused.
   */
  lemma CoarseMaskRejected(errorType: u32, flags: u32, param1: u64, param2: u64,
                           isV2: bool, availableV2: u32, paramExtension: bool, acpi5: bool,
                           vendorFlags: u32, regionOk: (nat, nat) -> bool, zeroPfn: nat -> bool, k: nat)
    requires paramExtension || acpi5
    requires And(errorType, ACPI5_VENDOR_BIT) == 0 && And(errorType, MEM_ERROR_MASK) != 0
    requires PAGE_SHIFT <= k < 64 && Bit(param2, k) == 0
    ensures ErrorInjectCheck(errorType, flags, param1, param2, isV2, availableV2, paramExtension,
                             acpi5, vendorFlags, regionOk, zeroPfn) == Reject(-EINVAL)
  {
    AndBit(param2, PageMask(), k);
    BitRange(64, PAGE_SHIFT, k);
    assert Bit(And(param2, PageMask()), k) != Bit(PageMask(), k);
  }

  /** Without the parameter extension or ACPI 5 only the flag and v2 checks apply. */
  lemma NoParamsNoMemoryChecks(errorType: u32, flags: u32, param1: u64, param2: u64,
                               isV2: bool, availableV2: u32,
                               vendorFlags: u32, regionOk: (nat, nat) -> bool, zeroPfn: nat -> bool)
    requires flags < 16 && !(isV2 && And(errorType, availableV2) == 0)
    ensures ErrorInjectCheck(errorType, flags, param1, param2, isV2, availableV2, false,
                             false, vendorFlags, regionOk, zeroPfn) == Inject
  {
    UnknownFlagsRejected(errorType, flags, param1, param2, isV2, availableV2, false, false,
                         vendorFlags, regionOk, zeroPfn);
  }

  /** einj_cxl_rch_error_inject's check. */
  function CxlRchCheck(errorType: u32, flags: u32): (r: InjectCheck)
    ensures r == Inject <==> IsCxlErrorType(errorType) && Bit(flags, 1) == 1
  {
    SingleBit(flags, 1);
    if !(IsCxlErrorType(errorType) && And(flags, SETWA_FLAGS_MEM) != 0) then Reject(-EINVAL) else Inject
  }

  /** ~SETWA_FLAGS_EINJV2 as a u32. */
  const NOT_EINJV2: nat := 0xffff_fff7

  /**
   * error_inject_set: no error type chosen means -EINVAL; otherwise
   * SETWA_FLAGS_EINJV2 is set or cleared to follow the v2 mode.
   */
  function ErrorInjectSetFlags(errorType: u32, flags: u32, isV2: bool): (r: Result<nat>)
    ensures r.Err? <==> errorType == 0
    ensures r.Err? ==> r.code == -EINVAL
  {
    if errorType == 0 then Err(-EINVAL)
    else if isV2 then Ok(Or(flags, SETWA_FLAGS_EINJV2))
    else Ok(And(flags, NOT_EINJV2))
  }

  /** The EINJv2 flag follows the mode and every other bit of the flags is kept. */
  lemma ErrorInjectSetFlagsBits(errorType: u32, flags: u32, isV2: bool, k: nat)
    requires errorType != 0 && k < 32
    ensures ErrorInjectSetFlags(errorType, flags, isV2).Ok?
    ensures Bit(ErrorInjectSetFlags(errorType, flags, isV2).value, k) ==
              if k == 3 then (if isV2 then 1 else 0) else Bit(flags, k)
  {
    SingleBit(flags, 3);
    Pow2Literals();
    if isV2 {
      OrBit(flags, SETWA_FLAGS_EINJV2, k);
      BitRange(4, 3, k);
      assert Mask(4, 3) == SETWA_FLAGS_EINJV2 by {
        assert Pow2(4) == 16 && Pow2(3) == 8;
      }
    } else {
      AndBit(flags, NOT_EINJV2, k);
      NotEinjV2Bits(k);
    }
  }

  lemma NotEinjV2Bits(k: nat)
    requires k < 32
    ensures Bit(NOT_EINJV2, k) == if k == 3 then 0 else 1
  {
    if k >= 4 {
      assert Bit(0xffff_fff7, k) == Bit(0x7fff_fffb, k - 1);
      assert Bit(0x7fff_fffb, k - 1) == Bit(0x3fff_fffd, k - 2);
      assert Bit(0x3fff_fffd, k - 2) == Bit(0x1fff_fffe, k - 3);
      assert Bit(0x1fff_fffe, k - 3) == Bit(0x0fff_ffff, k - 4);
      Pow2Literals();
      assert Pow2(28) == 0x1000_0000;
      BitRange(28, 0, k - 4);
    }
  }
}
