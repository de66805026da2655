// The sysfs file layer of fs/sysfs/file.c: the length clamping of the
// kernfs read and write callbacks, the in-place shift of a preallocated
// read, the seq_file show path, the choice of kernfs operation tables for
// regular and binary attributes, sysfs_create_files with its rollback, and
// sysfs_emit_at. Attribute callbacks are parameters: what they return is an
// input to the model.

module SysfsFile {
  import opened Ints
  import opened Errno
  import opened Wrappers
  import opened Bits

  const PAGE_SIZE: nat := 4096
  /** SYSFS_PREALLOC, 010000 in the mode word. */
  const SYSFS_PREALLOC_BIT: nat := 12
  const EEXIST: int := 17

  // ---------------------------------------------------------------------
  // Binary attribute reads and writes
  // ---------------------------------------------------------------------

  /** What a bin callback wrapper does: answer itself, or call read/write (or its _new variant). */
  datatype BinCall = Answer(ret: int) | Call(newStyle: bool, pos: nat, count: nat)

  /** sysfs_kf_bin_read: the count clamped to the file size before the callback sees it. */
  function BinRead(count: nat, pos: nat, size: nat, hasRead: bool, hasReadNew: bool): (r: BinCall)
    ensures count == 0 ==> r == Answer(0)
    ensures count > 0 && size != 0 && pos >= size ==> r == Answer(0)
    ensures r.Answer? ==> r.ret == 0 || r.ret == -EIO
    ensures r.Answer? && r.ret == -EIO <==> count > 0 && (size == 0 || pos < size) && !hasRead && !hasReadNew
    ensures r.Call? ==> (r.newStyle == hasReadNew && r.pos == pos && 1 <= r.count <= count
                         && (size != 0 ==> pos + r.count <= size && (r.count < count ==> pos + r.count == size)))
  {
    if count == 0 then Answer(0)
    else if size != 0 && pos >= size then Answer(0)
    else
      var n := if size != 0 && pos + count > size then size - pos else count;
      if !hasRead && !hasReadNew then Answer(-EIO)
      else if hasReadNew then Call(true, pos, n)
      else Call(false, pos, n)
  }

  /** sysfs_kf_bin_write: -EFBIG past the end, then the same clamping, then the callback. */
  function BinWrite(count: nat, pos: nat, size: nat, hasWrite: bool, hasWriteNew: bool): (r: BinCall)
    ensures size != 0 && pos >= size ==> r == Answer(-EFBIG)
    ensures r.Answer? ==> r.ret == 0 || r.ret == -EIO || r.ret == -EFBIG
    ensures r == Answer(0) <==> count == 0 && (size == 0 || pos < size)
    ensures r.Call? ==> (r.newStyle == hasWriteNew && r.pos == pos && 1 <= r.count <= count
                         && (size != 0 ==> pos + r.count <= size && (r.count < count ==> pos + r.count == size)))
    ensures r.Call? <==> count > 0 && (size == 0 || pos < size) && (hasWrite || hasWriteNew)
  {
    if size != 0 && size <= pos then Answer(-EFBIG)
    else
      var n := if size != 0 then Min(count, size - pos) else count;
      if n == 0 then Answer(0)
      else if !hasWrite && !hasWriteNew then Answer(-EIO)
      else if hasWriteNew then Call(true, pos, n)
      else Call(false, pos, n)
  }

  /** A zero-length access past the end is a success for reads and -EFBIG for writes. */
  lemma EmptyAccessPastEnd(pos: nat, size: nat, r: bool, w: bool)
    requires size != 0 && pos >= size
    ensures BinRead(0, pos, size, r, r) == Answer(0)
    ensures BinWrite(0, pos, size, w, w) == Answer(-EFBIG)
  {
  }

  /** sysfs_kf_write: an empty write succeeds without calling store. */
  function KfWrite(count: nat, storeRet: int): (r: int)
    ensures count == 0 ==> r == 0
    ensures count > 0 ==> r == storeRet
  {
    if count == 0 then 0 else storeRet
  }

  // ---------------------------------------------------------------------
  // show
  // ---------------------------------------------------------------------

  /** What an attribute's show callback produced: its bytes, or a negative error. */
  datatype ShowResult = Shown(bytes: seq<u8>) | ShowFailed(err: int)

  /** What sysfs_kf_seq_show hands to seq_file. */
  datatype SeqOutcome = SeqError(err: int) | Overflow | Commit(data: seq<u8>)

  /**
   * sysfs_kf_seq_show: -EINVAL without show; a buffer smaller than a page
   * is an overflow (seq_commit(-1)); otherwise show's output, cut to
   * PAGE_SIZE - 1 bytes when it claims a page or more.
   */
  function SeqShow(avail: int, hasShow: bool, show: ShowResult): (r: SeqOutcome)
    ensures !hasShow ==> r == SeqError(-EINVAL)
    ensures hasShow && avail < PAGE_SIZE ==> r == Overflow
    ensures r.Commit? ==> (show.Shown? && |r.data| < PAGE_SIZE && |r.data| <= |show.bytes|
                           && r.data == show.bytes[..|r.data|]
                           && (|show.bytes| < PAGE_SIZE ==> r.data == show.bytes))
    ensures r.SeqError? ==> !hasShow || (show.ShowFailed? && r.err == show.err)
  {
    if !hasShow then SeqError(-EINVAL)
    else if avail < PAGE_SIZE then Overflow
    else match show
      case ShowFailed(e) => SeqError(e)
      case Shown(bytes) =>
        var count := if |bytes| >= PAGE_SIZE then PAGE_SIZE - 1 else |bytes|;
        Commit(bytes[..count])
  }

  /** The bytes of a page once show has written its output over the start. */
  function AfterShow(page: seq<u8>, bytes: seq<u8>): (r: seq<u8>)
    requires |bytes| <= |page|
    ensures |r| == |page| && r[..|bytes|] == bytes && r[|bytes|..] == page[|bytes|..]
  {
    bytes + page[|bytes|..]
  }

  /** memmove(buf, buf + pos, n): the n bytes from pos moved to the start, the rest kept. */
  function MovedDown(page: seq<u8>, pos: nat, n: nat): (r: seq<u8>)
    requires pos + n <= |page|
    ensures |r| == |page| && r[..n] == page[pos..pos + n] && r[n..] == page[n..]
  {
    page[pos..pos + n] + page[n..]
  }

  /** The buffer and result of sysfs_kf_read for a show that produced bytes. */
  function KfReadShown(page: seq<u8>, bytes: seq<u8>, count: nat, pos: nat): (r: (int, seq<u8>))
    requires |bytes| <= |page|
  {
    var shown := AfterShow(page, bytes);
    if pos == 0 then (Min(count, |bytes|), shown)
    else if |bytes| <= pos then (0, shown)
    else (Min(count, |bytes| - pos), MovedDown(shown, pos, |bytes| - pos))
  }

  /** A preallocated read at pos returns show's output from pos on, at most count bytes of it. */
  lemma KfReadReturnsTail(page: seq<u8>, bytes: seq<u8>, count: nat, pos: nat)
    requires |bytes| <= |page|
    ensures var r := KfReadShown(page, bytes, count, pos);
            0 <= r.0 <= count && |r.1| == |page|
            && (pos < |bytes| ==> r.0 == Min(count, |bytes| - pos))
            && (pos >= |bytes| ==> r.0 == 0)
            && (pos < |bytes| ==> r.1[..r.0] == bytes[pos..pos + r.0])
  {
    var r := KfReadShown(page, bytes, count, pos);
    var shown := AfterShow(page, bytes);
    if pos == 0 {
      assert r.1[..r.0] == shown[..|bytes|][..r.0];
    } else if pos < |bytes| {
      var n := |bytes| - pos;
      assert r.1[..r.0] == MovedDown(shown, pos, n)[..n][..r.0];
      assert shown[pos..pos + n] == bytes[pos..];
    }
  }

  /**
   * sysfs_kf_read: nothing for a buffer other than the preallocated one;
   * otherwise show fills the buffer and the part from pos is moved to its
   * start.
   */
  method KfRead(buf: array<u8>, isPrealloc: bool, count: nat, pos: nat, show: ShowResult) returns (ret: int)
    requires buf.Length == PAGE_SIZE
    requires show.Shown? ==> |show.bytes| <= PAGE_SIZE
    modifies buf
    ensures !isPrealloc ==> ret == 0 && buf[..] == old(buf[..])
    ensures isPrealloc && show.ShowFailed? ==> ret == show.err && buf[..] == old(buf[..])
    ensures isPrealloc && show.Shown? ==> (ret, buf[..]) == KfReadShown(old(buf[..]), show.bytes, count, pos)
  {
    if !isPrealloc {
      return 0;
    }
    match show
    case ShowFailed(e) =>
      return e;
    case Shown(bytes) =>
      WriteShown(buf, bytes);
      var len := |bytes|;
      if pos != 0 {
        if len <= pos {
          return 0;
        }
        len := len - pos;
        MemmoveDown(buf, pos, len);
      }
      ret := Min(count, len);
  }

  /** show writing its output at the start of the buffer. */
  method WriteShown(buf: array<u8>, bytes: seq<u8>)
    requires |bytes| <= buf.Length
    modifies buf
    ensures buf[..] == AfterShow(old(buf[..]), bytes)
  {
    var i := 0;
    while i < |bytes|
      invariant 0 <= i <= |bytes|
      invariant forall j :: 0 <= j < i ==> buf[j] == bytes[j]
      invariant forall j :: i <= j < buf.Length ==> buf[j] == old(buf[j])
    {
      buf[i] := bytes[i];
      i := i + 1;
    }
    assert buf[..] == AfterShow(old(buf[..]), bytes) by {
      var a := AfterShow(old(buf[..]), bytes);
      forall j | 0 <= j < buf.Length
        ensures buf[..][j] == a[j]
      {
        if j < |bytes| {
          assert a[..|bytes|][j] == bytes[j];
        } else {
          assert a[|bytes|..][j - |bytes|] == old(buf[..])[|bytes|..][j - |bytes|];
        }
      }
    }
  }

  /** memmove(buf, buf + pos, n) as a forward copy, which is safe since the destination is below the source. */
  method MemmoveDown(buf: array<u8>, pos: nat, n: nat)
    requires pos + n <= buf.Length
    modifies buf
    ensures buf[..] == MovedDown(old(buf[..]), pos, n)
  {
    var i := 0;
    while i < n
      invariant 0 <= i <= n
      invariant forall j :: 0 <= j < i ==> buf[j] == old(buf[j + pos])
      invariant forall j :: i <= j < buf.Length ==> buf[j] == old(buf[j])
    {
      buf[i] := buf[i + pos];
      i := i + 1;
    }
    assert buf[..] == MovedDown(old(buf[..]), pos, n) by {
      var m := MovedDown(old(buf[..]), pos, n);
      forall j | 0 <= j < buf.Length
        ensures buf[..][j] == m[j]
      {
        if j < n {
          assert m[..n][j] == old(buf[..])[pos..pos + n][j];
        } else {
          assert m[n..][j - n] == old(buf[..])[n..][j - n];
        }
      }
    }
  }

  // ---------------------------------------------------------------------
  // Operation tables
  // ---------------------------------------------------------------------

  /** The kernfs_ops tables of file.c. */
  datatype KfOps = FileEmpty | FileRo | FileWo | FileRw | PreallocRo | PreallocWo | PreallocRw
                 | BinRo | BinWo | BinRw | BinMmap

  /** The kernfs callbacks and flags a table sets. */
  datatype Slot = SeqShowSlot | ReadSlot | WriteSlot | MmapSlot | OpenSlot | LlseekSlot | PreallocFlag

  function Slots(ops: KfOps): set<Slot>
  {
    match ops
    case FileEmpty => {}
    case FileRo => {SeqShowSlot}
    case FileWo => {WriteSlot}
    case FileRw => {SeqShowSlot, WriteSlot}
    case PreallocRo => {ReadSlot, PreallocFlag}
    case PreallocWo => {WriteSlot, PreallocFlag}
    case PreallocRw => {ReadSlot, WriteSlot, PreallocFlag}
    case BinRo => {ReadSlot}
    case BinWo => {WriteSlot}
    case BinRw => {ReadSlot, WriteSlot}
    case BinMmap => {ReadSlot, WriteSlot, MmapSlot, OpenSlot, LlseekSlot}
  }

  /** sysfs_add_file_mode_ns's choice: rw, ro, wo from show and store, prealloc variants under SYSFS_PREALLOC. */
  function FileOps(mode: nat, hasShow: bool, hasStore: bool): KfOps
  {
    if Bit(mode, SYSFS_PREALLOC_BIT) == 1 then
      if hasShow && hasStore then PreallocRw
      else if hasShow then PreallocRo
      else if hasStore then PreallocWo
      else FileEmpty
    else
      if hasShow && hasStore then FileRw
      else if hasShow then FileRo
      else if hasStore then FileWo
      else FileEmpty
  }

  /**
   * A regular attribute is readable exactly when it has show, writable
   * exactly when it has store, and uses the preallocated buffer exactly
   * when SYSFS_PREALLOC is set and it has either.
   */
  lemma FileOpsMeaning(mode: nat, hasShow: bool, hasStore: bool)
    ensures var s := Slots(FileOps(mode, hasShow, hasStore));
            var prealloc := Bit(mode, SYSFS_PREALLOC_BIT) == 1;
            (SeqShowSlot in s <==> hasShow && !prealloc)
            && (ReadSlot in s <==> hasShow && prealloc)
            && (WriteSlot in s <==> hasStore)
            && (PreallocFlag in s <==> prealloc && (hasShow || hasStore))
            && MmapSlot !in s
  {
  }

  /**
   * sysfs_add_file_mode_ns: -EINVAL for a kobject type without sysfs_ops;
   * otherwise the chosen table and what __kernfs_create_file returned
   * (`createErr`, 0 or negative), with the mode cut to its permission bits.
   */
  function AddFileModeNs(hasSysfsOps: bool, mode: nat, hasShow: bool, hasStore: bool, createErr: int): (r: Result<(KfOps, nat)>)
    requires createErr <= 0
    ensures !hasSysfsOps ==> r == Err(-EINVAL)
    ensures hasSysfsOps && createErr != 0 ==> r == Err(createErr)
    ensures r.Ok? ==> r.value.0 == FileOps(mode, hasShow, hasStore) && r.value.1 == And(mode, Mask(9, 0))
  {
    if !hasSysfsOps then Err(-EINVAL)
    else if createErr != 0 then Err(createErr)
    else Ok((FileOps(mode, hasShow, hasStore), And(mode, Mask(9, 0))))
  }

  /** sysfs_add_bin_file_mode_ns's checks and choice: mmap, then rw, ro, wo, then empty. */
  function BinFileOps(read: bool, readNew: bool, write: bool, writeNew: bool, mmap: bool): (r: Result<KfOps>)
    ensures r.Err? <==> (read && readNew) || (write && writeNew)
    ensures r.Err? ==> r.code == -EINVAL
  {
    if read && readNew then Err(-EINVAL)
    else if write && writeNew then Err(-EINVAL)
    else if mmap then Ok(BinMmap)
    else if (read || readNew) && (write || writeNew) then Ok(BinRw)
    else if read || readNew then Ok(BinRo)
    else if write || writeNew then Ok(BinWo)
    else Ok(FileEmpty)
  }

  /** A binary attribute's table reads exactly when it can read or mmap, writes when it can write or mmap. */
  lemma BinFileOpsMeaning(read: bool, readNew: bool, write: bool, writeNew: bool, mmap: bool)
    requires BinFileOps(read, readNew, write, writeNew, mmap).Ok?
    ensures var s := Slots(BinFileOps(read, readNew, write, writeNew, mmap).value);
            (ReadSlot in s <==> read || readNew || mmap)
            && (WriteSlot in s <==> write || writeNew || mmap)
            && (MmapSlot in s <==> mmap)
            && SeqShowSlot !in s && PreallocFlag !in s
  {
  }

  // ---------------------------------------------------------------------
  // sysfs_emit_at
  // ---------------------------------------------------------------------

  /**
   * sysfs_emit_at: 0 for a missing or unaligned buffer or `at` outside the
   * page; otherwise scnprintf into the rest of the page: as much of the
   * formatted text as fits before the terminating NUL. Returns the
   * characters written and the bytes stored from `at` on.
   */
  function EmitAt(bufOk: bool, at: int, text: seq<u8>): (r: (int, seq<u8>))
    ensures !bufOk || at < 0 || at >= PAGE_SIZE ==> r == (0, [])
    ensures bufOk && 0 <= at < PAGE_SIZE ==>
              (r.0 == Min(|text|, PAGE_SIZE - at - 1) && 0 <= r.0 < PAGE_SIZE - at
               && |r.1| == r.0 + 1 && |r.1| <= PAGE_SIZE - at && r.1 == text[..r.0] + [0])
  {
    if !bufOk || at < 0 || at >= PAGE_SIZE then (0, [])
    else
      var n := Min(|text|, PAGE_SIZE - at - 1);
      (n, text[..n] + [0])
  }

  // ---------------------------------------------------------------------
  // sysfs_create_files
  // ---------------------------------------------------------------------

  /** The names in s[..n]. */
  function Names(s: seq<string>, n: nat): (r: set<string>)
    requires n <= |s|
    ensures forall x :: x in r <==> exists j :: 0 <= j < n && s[j] == x
  {
    set j | 0 <= j < n :: s[j]
  }

  /** The names in s[lo..hi]. */
  function NamesIn(s: seq<string>, lo: nat, hi: nat): (r: set<string>)
    requires lo <= hi <= |s|
    ensures forall x :: x in r <==> exists j :: lo <= j < hi && s[j] == x
  {
    set j | lo <= j < hi :: s[j]
  }

  /** Whether creating names[i] fails in a directory holding files: -EEXIST, or the injected error. */
  function CreateErr(files: set<string>, name: string, fail: int): int
  {
    if name in files then -EEXIST else fail
  }

  /** The index of the first create that fails when names[i..] are created into files, or |names|. */
  function FirstFailure(files: set<string>, names: seq<string>, fails: seq<int>, i: nat): (k: nat)
    requires |fails| == |names| && i <= |names|
    ensures i <= k <= |names|
    decreases |names| - i
  {
    if i == |names| then i
    else if CreateErr(files, names[i], fails[i]) != 0 then i
    else FirstFailure(files + {names[i]}, names, fails, i + 1)
  }

  class Kobject {
    var files: set<string>

    constructor (initial: set<string>)
      ensures files == initial
    {
      files := initial;
    }

    /** sysfs_create_file: -EEXIST for a name in use, else the injected outcome `fail`. */
    method CreateFile(name: string, fail: int) returns (err: int)
      requires fail <= 0
      modifies this
      ensures err == CreateErr(old(files), name, fail)
      ensures files == if err == 0 then old(files) + {name} else old(files)
    {
      if name in files {
        return -EEXIST;
      }
      if fail != 0 {
        return fail;
      }
      files := files + {name};
      return 0;
    }

    method RemoveFile(name: string)
      modifies this
      ensures files == old(files) - {name}
    {
      files := files - {name};
    }

    /**
     * sysfs_create_files as written: creates until the first error, then,
     * because the for loop has already stepped past the failing entry,
     * removes that entry's name along with every name created before it.
     */
    method CreateFiles(names: seq<string>, fails: seq<int>) returns (err: int)
      requires |fails| == |names| && forall j :: 0 <= j < |fails| ==> fails[j] <= 0
      modifies this
      ensures var k := FirstFailure(old(files), names, fails, 0);
              if k == |names| then err == 0 && files == old(files) + Names(names, |names|)
              else err == CreateErr(old(files) + Names(names, k), names[k], fails[k]) && err != 0
                   && files == (old(files) + Names(names, k)) - Names(names, k + 1)
    {
      ghost var k := FirstFailure(files, names, fails, 0);
      ghost var files0 := files;
      err := 0;
      var i := 0;
      while i < |names| && err == 0
        invariant 0 <= i <= |names|
        invariant err == 0 ==> i <= k && files == files0 + Names(names, i)
                               && FirstFailure(files, names, fails, i) == k
        invariant err != 0 ==> i == k + 1 && k < |names| && files == files0 + Names(names, k)
                               && err == CreateErr(files, names[k], fails[k])
        decreases |names| - i
      {
        err := CreateFile(names[i], fails[i]);
        if err == 0 {
          assert Names(names, i + 1) == Names(names, i) + {names[i]};
        }
        i := i + 1;
      }
      if err != 0 {
        ghost var created := files;
        while i > 0
          invariant 0 <= i <= k + 1
          invariant files == created - NamesIn(names, i, k + 1)
          decreases i
        {
          i := i - 1;
          RemoveFile(names[i]);
          assert NamesIn(names, i, k + 1) == NamesIn(names, i + 1, k + 1) + {names[i]};
        }
        assert NamesIn(names, 0, k + 1) == Names(names, k + 1);
      }
    }

    /** sysfs_create_files with the rollback starting below the failing entry. */
    method CreateFilesUndoingCreated(names: seq<string>, fails: seq<int>) returns (err: int)
      requires |fails| == |names| && forall j :: 0 <= j < |fails| ==> fails[j] <= 0
      modifies this
      ensures var k := FirstFailure(old(files), names, fails, 0);
              if k == |names| then err == 0 && files == old(files) + Names(names, |names|)
              else err == CreateErr(old(files) + Names(names, k), names[k], fails[k]) && err != 0
                   && files == (old(files) + Names(names, k)) - Names(names, k)
      ensures err != 0 ==> files == old(files)
    {
      ghost var k := FirstFailure(files, names, fails, 0);
      ghost var files0 := files;
      err := 0;
      var i := 0;
      while i < |names| && err == 0
        invariant 0 <= i <= |names|
        invariant err == 0 ==> i <= k && files == files0 + Names(names, i)
                               && FirstFailure(files, names, fails, i) == k
        invariant err != 0 ==> i == k + 1 && k < |names| && files == files0 + Names(names, k)
                               && err == CreateErr(files, names[k], fails[k])
        decreases |names| - i
      {
        err := CreateFile(names[i], fails[i]);
        if err == 0 {
          assert Names(names, i + 1) == Names(names, i) + {names[i]};
        }
        i := i + 1;
      }
      if err != 0 {
        i := i - 1;
        ghost var created := files;
        while i > 0
          invariant 0 <= i <= k
          invariant files == created - NamesIn(names, i, k)
          decreases i
        {
          i := i - 1;
          RemoveFile(names[i]);
          assert NamesIn(names, i, k) == NamesIn(names, i + 1, k) + {names[i]};
        }
        assert NamesIn(names, 0, k) == Names(names, k);
        UndoRestores(files0, names, fails);
      }
    }
  }

  /** The names created before the first failure were not present before. */
  lemma {:induction false} CreatedWereAbsent(files: set<string>, names: seq<string>, fails: seq<int>, i: nat)
    requires |fails| == |names| && i <= |names|
    ensures forall j :: i <= j < FirstFailure(files, names, fails, i) ==> names[j] !in files
    decreases |names| - i
  {
    if i < |names| && CreateErr(files, names[i], fails[i]) == 0 {
      CreatedWereAbsent(files + {names[i]}, names, fails, i + 1);
    }
  }

  /** Undoing only what was created restores the directory exactly. */
  lemma UndoRestores(files: set<string>, names: seq<string>, fails: seq<int>)
    requires |fails| == |names|
    ensures var k := FirstFailure(files, names, fails, 0);
            (files + Names(names, k)) - Names(names, k) == files
  {
    var k := FirstFailure(files, names, fails, 0);
    CreatedWereAbsent(files, names, fails, 0);
  }

  /** The rollback as written deletes a file that existed before the call: the one whose name clashed. */
  lemma RollbackRemovesExisting()
    ensures var files := {"a"};
            var names := ["a"];
            var fails := [0];
            FirstFailure(files, names, fails, 0) == 0
            && (files + Names(names, 0)) - Names(names, 1) == {}
  {
    var names := ["a"];
    assert names[0] == "a";
    assert "a" in Names(names, 1);
  }
}
