// The size-reconciling struct copies of include/linux/uaccess.h, the tail
// zeroing of a short copy_from_user, and the per-task pagefault-disable
// counter. User memory is a byte sequence (what the user buffer holds) or
// an array (when the kernel writes to it); how many bytes an architecture
// copy primitive, clear_user or check_zeroed_user failed on is a parameter.

module Uaccess {
  import opened Ints
  import opened Errno
  import opened Wrappers

  function Zeros(n: nat): (z: seq<u8>)
    ensures |z| == n && forall i :: 0 <= i < n ==> z[i] == 0
  {
    seq<u8>(n, _ => 0)
  }

  predicate AllZero(s: seq<u8>)
  {
    forall i :: 0 <= i < |s| ==> s[i] == 0
  }

  // ---------------------------------------------------------------------
  // copy_from_user / copy_to_user
  // ---------------------------------------------------------------------

  /**
   * The kernel buffer after _inline_copy_from_user of n bytes when the copy
   * left `notCopied` bytes behind (n itself for an injected fault or a
   * failed access_ok): the bytes that arrived, then zeros up to n.
   */
  function FromUser(to: seq<u8>, from: seq<u8>, n: nat, notCopied: nat): (r: seq<u8>)
    requires n <= |to| && n <= |from| && notCopied <= n
    ensures |r| == |to|
    ensures r[..n - notCopied] == from[..n - notCopied]
    ensures AllZero(r[n - notCopied..n])
    ensures r[n..] == to[n..]
    ensures notCopied == 0 ==> r[..n] == from[..n]
  {
    from[..n - notCopied] + Zeros(notCopied) + to[n..]
  }

  /** The user buffer after copy_to_user of n bytes with `notCopied` left behind; nothing is zeroed. */
  function ToUser(to: seq<u8>, from: seq<u8>, n: nat, notCopied: nat): (r: seq<u8>)
    requires n <= |to| && n <= |from| && notCopied <= n
    ensures |r| == |to|
    ensures r[..n - notCopied] == from[..n - notCopied]
    ensures r[n - notCopied..] == to[n - notCopied..]
  {
    from[..n - notCopied] + to[n - notCopied..]
  }

  /** Copies src[..n] over the start of a, keeping the rest. */
  method CopyPrefix(a: array<u8>, src: seq<u8>, n: nat)
    requires n <= a.Length && n <= |src|
    modifies a
    ensures a[..] == src[..n] + old(a[..])[n..]
  {
    var i := 0;
    while i < n
      invariant 0 <= i <= n
      invariant forall j :: 0 <= j < i ==> a[j] == src[j]
      invariant forall j :: i <= j < a.Length ==> a[j] == old(a[j])
    {
      a[i] := src[i];
      i := i + 1;
    }
    assert a[..] == src[..n] + old(a[..])[n..] by {
      var e := src[..n] + old(a[..])[n..];
      forall j | 0 <= j < a.Length
        ensures a[..][j] == e[j]
      {
        if j >= n {
          assert e[j] == old(a[..])[n..][j - n];
        }
      }
    }
  }

  /** memset(a + lo, 0, len). */
  method ZeroFill(a: array<u8>, lo: nat, len: nat)
    requires lo + len <= a.Length
    modifies a
    ensures a[..] == old(a[..])[..lo] + Zeros(len) + old(a[..])[lo + len..]
  {
    var i := lo;
    while i < lo + len
      invariant lo <= i <= lo + len
      invariant forall j :: 0 <= j < lo ==> a[j] == old(a[j])
      invariant forall j :: lo <= j < i ==> a[j] == 0
      invariant forall j :: i <= j < a.Length ==> a[j] == old(a[j])
    {
      a[i] := 0;
      i := i + 1;
    }
    assert a[..] == old(a[..])[..lo] + Zeros(len) + old(a[..])[lo + len..] by {
      var e := old(a[..])[..lo] + Zeros(len) + old(a[..])[lo + len..];
      forall j | 0 <= j < a.Length
        ensures a[..][j] == e[j]
      {
        if j < lo {
          assert e[j] == old(a[..])[..lo][j];
        } else if j < lo + len {
          assert e[j] == Zeros(len)[j - lo];
        } else {
          assert e[j] == old(a[..])[lo + len..][j - lo - len];
        }
      }
    }
  }

  /**
   * _inline_copy_from_user: the architecture copy brings all but
   * `notCopied` bytes; the uncopied tail is zero-filled and its length is
   * returned.
   */
  method CopyFromUser(to: array<u8>, from: seq<u8>, n: nat, notCopied: nat) returns (res: nat)
    requires n <= to.Length && n <= |from| && notCopied <= n
    modifies to
    ensures res == notCopied
    ensures to[..] == FromUser(old(to[..]), from, n, notCopied)
  {
    CopyPrefix(to, from, n - notCopied);
    res := notCopied;
    if res == 0 {
      assert to[..] == FromUser(old(to[..]), from, n, notCopied) by {
        assert Zeros(0) == [];
        assert from[..n] + Zeros(0) + old(to[..])[n..] == from[..n] + old(to[..])[n..];
      }
      return;
    }
    ghost var mid := to[..];
    ZeroFill(to, n - res, res);
    assert to[..] == FromUser(old(to[..]), from, n, notCopied) by {
      assert mid[..n - res] == from[..n - res];
      assert mid[n..] == old(to[..])[n..];
    }
  }

  /** _inline_copy_to_user: the first n - notCopied bytes reach the user; returns notCopied. */
  method CopyToUser(to: array<u8>, from: seq<u8>, n: nat, notCopied: nat) returns (res: nat)
    requires n <= to.Length && n <= |from| && notCopied <= n
    modifies to
    ensures res == notCopied
    ensures to[..] == ToUser(old(to[..]), from, n, notCopied)
  {
    CopyPrefix(to, from, n - notCopied);
    res := notCopied;
  }

  // ---------------------------------------------------------------------
  // copy_struct_from_user
  // ---------------------------------------------------------------------

  /**
   * The outcome of copy_struct_from_user into a kernel object whose size
   * is |dst|. `zeroCheckFault` is check_zeroed_user failing with -EFAULT;
   * `notCopied` is what copy_from_user left behind.
   */
  function StructFromUser(dst: seq<u8>, ksize: nat, src: seq<u8>, usize: nat,
                          zeroCheckFault: bool, notCopied: nat): (r: (int, seq<u8>))
    requires usize <= |src| && notCopied <= Min(ksize, usize)
    ensures |r.1| == |dst|
    ensures ksize > |dst| ==> r == (-E2BIG, dst)
    ensures ksize <= |dst| && usize > ksize && zeroCheckFault ==> r == (-EFAULT, dst)
    ensures ksize <= |dst| && usize > ksize && !zeroCheckFault && !AllZero(src[ksize..usize]) ==> r == (-E2BIG, dst)
    ensures r.0 == 0 <==> ksize <= |dst| && notCopied == 0
                          && (usize > ksize ==> !zeroCheckFault && AllZero(src[ksize..usize]))
    ensures r.0 == 0 && usize == ksize ==> r.1[..ksize] == src[..ksize]
    ensures r.0 == 0 && usize < ksize ==> r.1[..usize] == src[..usize] && AllZero(r.1[usize..ksize])
    ensures r.0 == 0 && usize > ksize ==> r.1[..ksize] == src[..ksize]
    ensures r.0 == 0 ==> r.1[ksize..] == dst[ksize..]
  {
    var size := Min(ksize, usize);
    if ksize > |dst| then (-E2BIG, dst)
    else if usize > ksize && zeroCheckFault then (-EFAULT, dst)
    else if usize > ksize && !AllZero(src[ksize..usize]) then (-E2BIG, dst)
    else
      var filled := if usize < ksize then dst[..size] + Zeros(ksize - size) + dst[ksize..] else dst;
      var copied := FromUser(filled, src, size, notCopied);
      assert usize < ksize ==> filled[size..ksize] == Zeros(ksize - size);
      assert copied[size..ksize] == copied[size..][..ksize - size] == filled[size..][..ksize - size];
      (if notCopied == 0 then 0 else -EFAULT, copied)
  }

  /** copy_struct_from_user: zero the kernel's extra tail, or check the user's extra tail is zero, then copy. */
  method CopyStructFromUser(dst: array<u8>, ksize: nat, src: seq<u8>, usize: nat,
                            zeroCheckFault: bool, notCopied: nat) returns (err: int)
    requires usize <= |src| && notCopied <= Min(ksize, usize)
    modifies dst
    ensures (err, dst[..]) == StructFromUser(old(dst[..]), ksize, src, usize, zeroCheckFault, notCopied)
  {
    var size := Min(ksize, usize);
    var rest := Max(ksize, usize) - size;
    if ksize > dst.Length {
      return -E2BIG;
    }
    if usize < ksize {
      ZeroFill(dst, size, rest);
    } else if usize > ksize {
      if zeroCheckFault {
        return -EFAULT;
      }
      if !AllZero(src[size..size + rest]) {
        return -E2BIG;
      }
    }
    var left := CopyFromUser(dst, src, size, notCopied);
    if left != 0 {
      return -EFAULT;
    }
    return 0;
  }

  // ---------------------------------------------------------------------
  // copy_struct_to_user
  // ---------------------------------------------------------------------

  /**
   * Whether a kernel struct of ksize bytes holds a nonzero byte a user
   * struct of usize bytes cannot see: one in src[usize..ksize].
   */
  function IgnoredTrailing(src: seq<u8>, ksize: nat, usize: nat): (r: bool)
    requires ksize <= |src|
    ensures r <==> exists j :: usize <= j < ksize && src[j] != 0
  {
    usize < ksize && !AllZero(src[usize..ksize])
  }

  /**
   * The ignored_trailing test as written, `ksize < usize && memchr_inv(src +
   * size, 0, rest)`: `kmem` is kernel memory from src on, which the test
   * reads up to usize, past the ksize-byte object when usize is larger.
   */
  function IgnoredTrailingAsWritten(kmem: seq<u8>, ksize: nat, usize: nat): (r: bool)
    requires Max(ksize, usize) <= |kmem|
    ensures r <==> ksize < usize && exists j :: ksize <= j < usize && kmem[j] != 0
  {
    ksize < usize && !AllZero(kmem[Min(ksize, usize)..Max(ksize, usize)])
  }

  /** As written, a nonzero byte the user struct is too short to receive goes unreported. */
  lemma IgnoredTrailingMissed()
    ensures var src: seq<u8> := [0, 1];
            !IgnoredTrailingAsWritten(src, 2, 1) && IgnoredTrailing(src, 2, 1)
  {
    var src: seq<u8> := [0, 1];
    assert src[1..2][0] != 0;
    assert src[1] != 0;
  }

  /** As written, a larger user struct makes the test read the byte past the kernel object. */
  lemma IgnoredTrailingReadsPastObject()
    ensures var kmem: seq<u8> := [0, 5];
            IgnoredTrailingAsWritten(kmem, 1, 2) && !IgnoredTrailing(kmem[..1], 1, 2)
  {
    var kmem: seq<u8> := [0, 5];
    assert kmem[1..2][0] != 0;
  }

  /**
   * The outcome of copy_struct_to_user from a kernel object src (|src| is
   * its size) into a user buffer dst: -E2BIG when ksize exceeds the object;
   * -EFAULT when clear_user left `clearLeft` of the extra user bytes or
   * copy_to_user left `notCopied` bytes. The ignored_trailing flag is
   * reported only when the caller asked for it (`wantIgnored`).
   */
  function StructToUser(dst: seq<u8>, usize: nat, src: seq<u8>, ksize: nat, wantIgnored: bool,
                        clearLeft: nat, notCopied: nat): (r: (int, Option<bool>, seq<u8>))
    requires usize <= |dst| && notCopied <= Min(ksize, usize)
    requires clearLeft <= Max(ksize, usize) - Min(ksize, usize)
    ensures |r.2| == |dst|
    ensures ksize > |src| ==> r == (-E2BIG, None, dst)
    ensures r.0 == 0 <==> ksize <= |src| && notCopied == 0 && (usize > ksize ==> clearLeft == 0)
    ensures r.0 == 0 ==> r.2[..Min(ksize, usize)] == src[..Min(ksize, usize)]
    ensures r.0 == 0 && usize > ksize ==> AllZero(r.2[ksize..usize])
    ensures r.0 == 0 ==> r.2[usize..] == dst[usize..]
    ensures r.1.Some? <==> wantIgnored && ksize <= |src| && (usize > ksize ==> clearLeft == 0)
    ensures r.1.Some? ==> r.1.value == IgnoredTrailing(src, ksize, usize)
  {
    var size := Min(ksize, usize);
    var rest := Max(ksize, usize) - size;
    if ksize > |src| then (-E2BIG, None, dst)
    else
      var cleared := if usize > ksize then dst[..size] + Zeros(rest - clearLeft) + dst[size + rest - clearLeft..] else dst;
      if usize > ksize && clearLeft != 0 then (-EFAULT, None, cleared)
      else
        var ignored := if wantIgnored then Some(IgnoredTrailing(src, ksize, usize)) else None;
        var copied := ToUser(cleared, src, size, notCopied);
        assert usize > ksize ==> cleared[size..usize] == Zeros(rest - clearLeft);
        assert notCopied == 0 ==> copied[size..usize] == copied[size..][..usize - size] == cleared[size..][..usize - size];
        (if notCopied == 0 then 0 else -EFAULT, ignored, copied)
  }

  /** copy_struct_to_user: zero the user's extra tail, report dropped bytes, then copy. */
  method CopyStructToUser(dst: array<u8>, usize: nat, src: seq<u8>, ksize: nat, wantIgnored: bool,
                          clearLeft: nat, notCopied: nat) returns (err: int, ignored: Option<bool>)
    requires usize <= dst.Length && notCopied <= Min(ksize, usize)
    requires clearLeft <= Max(ksize, usize) - Min(ksize, usize)
    modifies dst
    ensures (err, ignored, dst[..]) == StructToUser(old(dst[..]), usize, src, ksize, wantIgnored, clearLeft, notCopied)
  {
    var size := Min(ksize, usize);
    var rest := Max(ksize, usize) - size;
    ignored := None;
    if ksize > |src| {
      return -E2BIG, None;
    }
    if usize > ksize {
      // clear_user zeroes all but the last clearLeft bytes of the range
      ZeroFill(dst, size, rest - clearLeft);
      if clearLeft != 0 {
        return -EFAULT, None;
      }
    }
    if wantIgnored {
      ignored := Some(IgnoredTrailing(src, ksize, usize));
    }
    var left := CopyToUser(dst, src, size, notCopied);
    if left != 0 {
      return -EFAULT, ignored;
    }
    return 0, ignored;
  }

  // ---------------------------------------------------------------------
  // pagefault_disable / pagefault_enable
  // ---------------------------------------------------------------------

  /** The current task's pagefault_disabled counter. */
  class Task {
    var pagefaultDisabled: int

    constructor ()
      ensures pagefaultDisabled == 0 && !PagefaultDisabled()
    {
      pagefaultDisabled := 0;
    }

    /** pagefault_disabled(): the handler is off while the counter is nonzero. */
    predicate PagefaultDisabled(): (r: bool)
      reads this
      ensures pagefaultDisabled > 0 ==> r
      ensures pagefaultDisabled == 0 ==> !r
    {
      pagefaultDisabled != 0
    }

    method PagefaultDisable()
      modifies this
      ensures pagefaultDisabled == old(pagefaultDisabled) + 1
      ensures old(pagefaultDisabled) >= 0 ==> PagefaultDisabled()
    {
      pagefaultDisabled := pagefaultDisabled + 1;
    }

    method PagefaultEnable()
      modifies this
      ensures pagefaultDisabled == old(pagefaultDisabled) - 1
    {
      pagefaultDisabled := pagefaultDisabled - 1;
    }
  }

  /** The counter after a sequence of disable (true) and enable (false) calls. */
  function AfterCalls(counter: int, calls: seq<bool>): (r: int)
    ensures r == counter + Disables(calls) - (|calls| - Disables(calls))
    decreases |calls|
  {
    if calls == [] then counter
    else AfterCalls(if calls[0] then counter + 1 else counter - 1, calls[1..])
  }

  /** The number of disable calls. */
  function Disables(calls: seq<bool>): (n: nat)
    ensures n <= |calls|
    decreases |calls|
  {
    if calls == [] then 0 else (if calls[0] then 1 else 0) + Disables(calls[1..])
  }

  /** Whether `calls` holds as many enables as disables. */
  predicate Balanced(calls: seq<bool>)
  {
    Disables(calls) * 2 == |calls|
  }

  /** Balanced disable/enable calls restore the counter, and with it pagefault_disabled(). */
  lemma BalancedRestores(counter: int, calls: seq<bool>)
    requires Balanced(calls)
    ensures AfterCalls(counter, calls) == counter
    ensures (AfterCalls(counter, calls) != 0) == (counter != 0)
  {
  }

  /** faulthandler_disabled(): off by pagefault_disable or in atomic context. */
  function FaulthandlerDisabled(counter: int, inAtomic: bool): (r: bool)
    ensures r <==> counter != 0 || inAtomic
  {
    counter != 0 || inAtomic
  }
}
