// Log-level headers of include/linux/printk.h. A C string is its
// characters before the terminating NUL; reading at or past its end reads
// that NUL.

module Printk {
  /** KERN_SOH_ASCII, the start-of-header byte of a level. */
  const KERN_SOH: char := '\U{1}'
  const NUL: char := '\0'
  /** PRINTK_MAX_SINGLE_HEADER_LEN */
  const HEADER_LEN: nat := 2

  /** buffer[i] of the NUL-terminated string s. */
  function At(s: string, i: nat): char
  {
    if i < |s| then s[i] else NUL
  }

  /** The level characters: '0' to '7' and 'c' (KERN_CONT). */
  predicate IsLevelChar(c: char)
  {
    '0' <= c <= '7' || c == 'c'
  }

  /** printk_get_level: the level character after a SOH, or NUL. */
  function GetLevel(buffer: string): (r: char)
    ensures r != NUL <==> |buffer| >= 2 && buffer[0] == KERN_SOH && IsLevelChar(buffer[1])
    ensures r != NUL ==> r == buffer[1]
  {
    if At(buffer, 0) == KERN_SOH && At(buffer, 1) != NUL then
      if IsLevelChar(At(buffer, 1)) then At(buffer, 1) else NUL
    else NUL
  }

  /** printk_skip_level: past one header, if the string starts with one. */
  function SkipLevel(buffer: string): (r: string)
    ensures GetLevel(buffer) != NUL ==> |buffer| >= HEADER_LEN && r == buffer[HEADER_LEN..]
    ensures GetLevel(buffer) == NUL ==> r == buffer
  {
    if GetLevel(buffer) != NUL then buffer[2..] else buffer
  }

  /** Whether buffer[..n] is a run of whole headers. */
  predicate HeadersOnly(buffer: string, n: nat)
  {
    n % HEADER_LEN == 0 && n <= |buffer|
    && forall k :: 0 <= k < n / HEADER_LEN ==> GetLevel(buffer[HEADER_LEN * k..]) != NUL
  }

  /** How far printk_skip_headers advances. */
  function HeadersLen(buffer: string): (n: nat)
    ensures n <= |buffer| && n % HEADER_LEN == 0
    decreases |buffer|
  {
    if GetLevel(buffer) != NUL then HEADER_LEN + HeadersLen(SkipLevel(buffer)) else 0
  }

  /** The skipped prefix is a run of whole headers, and what follows starts with none. */
  lemma {:induction false} HeadersLenMeaning(buffer: string)
    ensures HeadersOnly(buffer, HeadersLen(buffer))
    ensures GetLevel(buffer[HeadersLen(buffer)..]) == NUL
    decreases |buffer|
  {
    if GetLevel(buffer) != NUL {
      var rest := buffer[2..];
      HeadersLenMeaning(rest);
      var n := HeadersLen(buffer);
      assert buffer[n..] == rest[n - 2..];
      forall k | 0 <= k < n / 2
        ensures GetLevel(buffer[2 * k..]) != NUL
      {
        if k > 0 {
          assert buffer[2 * k..] == rest[2 * (k - 1)..];
        }
      }
    }
  }

  /** The skipped prefix is the longest run of whole headers: none can be skipped further. */
  lemma {:induction false} HeadersLenMaximal(buffer: string, m: nat)
    requires HeadersOnly(buffer, m)
    ensures m <= HeadersLen(buffer)
    decreases |buffer|
  {
    if m > 0 {
      assert m / HEADER_LEN > 0;
      assert GetLevel(buffer[HEADER_LEN * 0..]) != NUL;
      assert buffer[HEADER_LEN * 0..] == buffer;
      var rest := buffer[2..];
      forall k | 0 <= k < (m - 2) / 2
        ensures GetLevel(rest[2 * k..]) != NUL
      {
        assert rest[2 * k..] == buffer[2 * (k + 1)..];
      }
      HeadersLenMaximal(rest, m - 2);
    }
  }

  /** printk_skip_headers is idempotent, and the identity on a string that starts with no header. */
  lemma SkipHeadersIdempotent(buffer: string)
    ensures HeadersLen(buffer[HeadersLen(buffer)..]) == 0
    ensures GetLevel(buffer) == NUL ==> HeadersLen(buffer) == 0
  {
    HeadersLenMeaning(buffer);
  }

  /** printk_skip_headers: the offset of the first character after the leading headers. */
  method SkipHeaders(buffer: string) returns (off: nat)
    ensures off == HeadersLen(buffer)
    ensures HeadersOnly(buffer, off) && GetLevel(buffer[off..]) == NUL
  {
    off := 0;
    while GetLevel(buffer[off..]) != NUL
      invariant off <= |buffer|
      invariant off + HeadersLen(buffer[off..]) == HeadersLen(buffer)
      decreases |buffer| - off
    {
      assert SkipLevel(buffer[off..]) == buffer[off + 2..];
      off := off + 2;
    }
    HeadersLenMeaning(buffer);
  }
}
