// The atomisp ISP memory manager of drivers/staging/media/atomisp/pci/hmm/hmm.c:
// loads, stores and memsets over a buffer object's page array, split at
// page boundaries; the buffer-object checks; the virtual-to-physical
// translation; and the unwinding of a failed allocation. A buffer object
// is a value holding its pages; the device owns the list of them.

module Hmm {
  import opened Ints
  import opened Errno
  import opened Wrappers

  const PAGE_SHIFT: nat := 12
  const PAGE_SIZE: nat := 4096

  type Page = seq<u8>

  /**
   * A buffer object: its ISP virtual start, its page count, its pages and
   * their frame numbers, and the status bits hmm.c tests.
   */
  datatype Bo = Bo(start: nat, pgnr: nat, pages: seq<Page>, pfns: seq<nat>,
                   pageAllocated: bool, vaAllocated: bool, vmapped: bool)

  predicate PagesValid(pages: seq<Page>)
  {
    forall p :: 0 <= p < |pages| ==> |pages[p]| == PAGE_SIZE
  }

  predicate BoValid(bo: Bo)
  {
    |bo.pages| == bo.pgnr && |bo.pfns| == bo.pgnr && PagesValid(bo.pages)
  }

  /** Whether virt lies in the buffer object's ISP address range. */
  predicate Contains(bo: Bo, virt: nat)
  {
    bo.start <= virt < bo.start + bo.pgnr * PAGE_SIZE
  }

  /** hmm_bo_device_search_in_range: the first buffer object whose range holds virt. */
  function SearchInRange(bos: seq<Bo>, virt: nat): (r: Option<nat>)
    ensures r.Some? ==> (r.value < |bos| && Contains(bos[r.value], virt)
                         && forall i :: 0 <= i < r.value ==> !Contains(bos[i], virt))
    ensures r.None? <==> forall i :: 0 <= i < |bos| ==> !Contains(bos[i], virt)
  {
    if |bos| == 0 then None
    else if Contains(bos[0], virt) then Some(0)
    else match SearchInRange(bos[1..], virt)
      case None => None
      case Some(i) => Some(i + 1)
  }

  /** hmm_check_bo: the object must exist, have pages and have an ISP address range. */
  function CheckBo(bos: seq<Bo>, found: Option<nat>): (r: int)
    requires found.Some? ==> found.value < |bos|
    ensures r == 0 || r == -EINVAL
    ensures r == 0 <==> found.Some? && bos[found.value].pageAllocated && bos[found.value].vaAllocated
  {
    if found.None? then -EINVAL
    else if !bos[found.value].pageAllocated then -EINVAL
    else if !bos[found.value].vaAllocated then -EINVAL
    else 0
  }

  // ---------------------------------------------------------------------
  // Page splitting
  // ---------------------------------------------------------------------

  /** `(virt - start) >> PAGE_SHIFT` and `(virt - start) - (idx << PAGE_SHIFT)`. */
  lemma PageSplit(o: nat)
    ensures (o / PAGE_SIZE) * PAGE_SIZE + o % PAGE_SIZE == o && o % PAGE_SIZE < PAGE_SIZE
  {
  }

  /** One chunk's length: the rest of the page, or what remains if that is less. */
  function ChunkLen(bytes: nat, offset: nat): (len: nat)
    requires offset < PAGE_SIZE
    ensures len == Min(bytes, PAGE_SIZE - offset)
    ensures bytes > 0 ==> len >= 1
  {
    if bytes + offset >= PAGE_SIZE then PAGE_SIZE - offset else bytes
  }

  datatype Chunk = Chunk(idx: nat, offset: nat, len: nat)

  /** The chunks the copy loops visit for [o, o + bytes) relative to the object start. */
  function Chunks(o: nat, bytes: nat): seq<Chunk>
    decreases bytes
  {
    if bytes == 0 then []
    else
      var len := ChunkLen(bytes, o % PAGE_SIZE);
      [Chunk(o / PAGE_SIZE, o % PAGE_SIZE, len)] + Chunks(o + len, bytes - len)
  }

  function SumLens(cs: seq<Chunk>): nat
  {
    if |cs| == 0 then 0 else cs[0].len + SumLens(cs[1..])
  }

  /** cs tiles what starts at o: each chunk stays within its page and starts where the previous one ended. */
  ghost predicate Tiles(cs: seq<Chunk>, o: nat)
  {
    forall i :: 0 <= i < |cs| ==>
      cs[i].len >= 1 && cs[i].offset + cs[i].len <= PAGE_SIZE
      && cs[i].idx * PAGE_SIZE + cs[i].offset == o + SumLens(cs[..i])
  }

  /**
   * The chunks tile the range: each stays within its page, starts where
   * the previous one ended, and their lengths add up to bytes.
   */
  lemma {:induction false} ChunksTile(o: nat, bytes: nat)
    ensures SumLens(Chunks(o, bytes)) == bytes
    ensures Tiles(Chunks(o, bytes), o)
    decreases bytes
  {
    if bytes > 0 {
      var len := ChunkLen(bytes, o % PAGE_SIZE);
      ChunksTile(o + len, bytes - len);
      var c := Chunk(o / PAGE_SIZE, o % PAGE_SIZE, len);
      var rest := Chunks(o + len, bytes - len);
      assert Chunks(o, bytes) == [c] + rest;
      PageSplit(o);
      TilesCons(c, rest, o);
    }
  }

  /** A chunk at o followed by chunks tiling what starts after it tiles what starts at o. */
  lemma TilesCons(c: Chunk, rest: seq<Chunk>, o: nat)
    requires c.len >= 1 && c.offset + c.len <= PAGE_SIZE && c.idx * PAGE_SIZE + c.offset == o
    requires Tiles(rest, o + c.len)
    ensures SumLens([c] + rest) == c.len + SumLens(rest)
    ensures Tiles([c] + rest, o)
  {
    var cs := [c] + rest;
    assert cs[1..] == rest;
    forall i | 0 <= i < |cs|
      ensures cs[i].len >= 1 && cs[i].offset + cs[i].len <= PAGE_SIZE
              && cs[i].idx * PAGE_SIZE + cs[i].offset == o + SumLens(cs[..i])
    {
      if i == 0 {
        assert cs[..0] == [];
      } else {
        assert cs[i] == rest[i - 1];
        assert cs[..i][1..] == rest[..i - 1];
      }
    }
  }

  // ---------------------------------------------------------------------
  // What the copies do to the bytes
  // ---------------------------------------------------------------------

  /** The byte at offset a from the object start. */
  function ByteAt(pages: seq<Page>, a: nat): u8
    requires PagesValid(pages) && a < |pages| * PAGE_SIZE
  {
    pages[a / PAGE_SIZE][a % PAGE_SIZE]
  }

  /** The pages with d written from offset o; every other byte kept. */
  function StoreSpec(pages: seq<Page>, o: nat, d: seq<u8>): (r: seq<Page>)
    requires PagesValid(pages)
    ensures |r| == |pages| && PagesValid(r)
  {
    seq(|pages|, p requires 0 <= p < |pages| =>
      seq(PAGE_SIZE, j requires 0 <= j < PAGE_SIZE =>
        if o <= p * PAGE_SIZE + j < o + |d| then d[p * PAGE_SIZE + j - o] else pages[p][j]))
  }

  /** The n bytes from offset o. */
  function LoadSpec(pages: seq<Page>, o: nat, n: nat): (r: seq<u8>)
    requires PagesValid(pages) && o + n <= |pages| * PAGE_SIZE
    ensures |r| == n && forall i :: 0 <= i < n ==> r[i] == ByteAt(pages, o + i)
  {
    var r := seq<u8>(n, i requires 0 <= i < n => ByteAt(pages, o + i));
    r
  }

  /** Storing nothing changes nothing. */
  lemma StoreNothing(pages: seq<Page>, o: nat)
    requires PagesValid(pages)
    ensures StoreSpec(pages, o, []) == pages
  {
    var r := StoreSpec(pages, o, []);
    forall p | 0 <= p < |pages|
      ensures r[p] == pages[p]
    {
      assert |r[p]| == |pages[p]|;
    }
  }

  /** What memset writes: c converted to unsigned char. */
  function Fill(c: int, n: nat): (r: seq<u8>)
    ensures |r| == n && forall i :: 0 <= i < n ==> r[i] == c % U8_LIMIT
  {
    seq(n, _ => c % U8_LIMIT)
  }

  /** A store changes exactly the stored bytes. */
  lemma StoreBytes(pages: seq<Page>, o: nat, d: seq<u8>, a: nat)
    requires PagesValid(pages) && a < |pages| * PAGE_SIZE
    ensures ByteAt(StoreSpec(pages, o, d), a) == if o <= a < o + |d| then d[a - o] else ByteAt(pages, a)
  {
    PageSplit(a);
  }

  /** Loading a range right after storing d there returns d. */
  lemma StoreThenLoad(pages: seq<Page>, o: nat, d: seq<u8>)
    requires PagesValid(pages) && o + |d| <= |pages| * PAGE_SIZE
    ensures LoadSpec(StoreSpec(pages, o, d), o, |d|) == d
  {
    var r := LoadSpec(StoreSpec(pages, o, d), o, |d|);
    forall i | 0 <= i < |d|
      ensures r[i] == d[i]
    {
      StoreBytes(pages, o, d, o + i);
    }
  }

  /** After a memset every byte of the range reads back as c converted to unsigned char. */
  lemma SetThenLoad(pages: seq<Page>, o: nat, c: int, n: nat)
    requires PagesValid(pages) && o + n <= |pages| * PAGE_SIZE
    ensures forall i :: 0 <= i < n ==> LoadSpec(StoreSpec(pages, o, Fill(c, n)), o, n)[i] == c % U8_LIMIT
  {
    StoreThenLoad(pages, o, Fill(c, n));
  }

  /** Storing the same bytes twice is storing them once. */
  lemma StoreTwice(pages: seq<Page>, o: nat, d: seq<u8>)
    requires PagesValid(pages)
    ensures StoreSpec(StoreSpec(pages, o, d), o, d) == StoreSpec(pages, o, d)
  {
    var once := StoreSpec(pages, o, d);
    var twice := StoreSpec(once, o, d);
    forall p | 0 <= p < |pages|
      ensures twice[p] == once[p]
    {
      assert |twice[p]| == |once[p]|;
    }
  }

  /** A store leaves the bytes outside its range as they were. */
  lemma StoreKeepsOutside(pages: seq<Page>, o: nat, d: seq<u8>, o2: nat, n: nat)
    requires PagesValid(pages) && o2 + n <= |pages| * PAGE_SIZE
    requires o2 + n <= o || o + |d| <= o2
    ensures LoadSpec(StoreSpec(pages, o, d), o2, n) == LoadSpec(pages, o2, n)
  {
    forall i | 0 <= i < n
      ensures LoadSpec(StoreSpec(pages, o, d), o2, n)[i] == LoadSpec(pages, o2, n)[i]
    {
      StoreBytes(pages, o, d, o2 + i);
    }
  }

  /** One iteration of a store loop writes one chunk of the page it is in. */
  lemma StoreStep(pages: seq<Page>, o: nat, d: seq<u8>, done: nat, len: nat, idx: nat, off: nat)
    requires PagesValid(pages) && idx < |pages|
    requires o + done == idx * PAGE_SIZE + off && off + len <= PAGE_SIZE && done + len <= |d|
    ensures var cur := StoreSpec(pages, o, d[..done]);
            cur[idx := cur[idx][..off] + d[done..done + len] + cur[idx][off + len..]] == StoreSpec(pages, o, d[..done + len])
  {
    var cur := StoreSpec(pages, o, d[..done]);
    var next := StoreSpec(pages, o, d[..done + len]);
    var page := cur[idx][..off] + d[done..done + len] + cur[idx][off + len..];
    forall p | 0 <= p < |pages|
      ensures cur[idx := page][p] == next[p]
    {
      forall j | 0 <= j < PAGE_SIZE
        ensures cur[idx := page][p][j] == next[p][j]
      {
        if p == idx {
          if off <= j < off + len {
            assert page[j] == d[done + j - off];
          } else if j < off {
            assert page[j] == cur[idx][j];
          } else {
            assert page[j] == cur[idx][j];
          }
        } else if p < idx {
          assert p * PAGE_SIZE + j < idx * PAGE_SIZE;
        } else {
          assert p * PAGE_SIZE >= (idx + 1) * PAGE_SIZE;
        }
      }
    }
  }

  /** One iteration of the load loop copies one chunk of the page it is in. */
  lemma LoadStep(pages: seq<Page>, o: nat, done: nat, len: nat, idx: nat, off: nat)
    requires PagesValid(pages) && idx < |pages|
    requires o + done == idx * PAGE_SIZE + off && off + len <= PAGE_SIZE && o + done + len <= |pages| * PAGE_SIZE
    ensures LoadSpec(pages, o, done) + pages[idx][off..off + len] == LoadSpec(pages, o, done + len)
  {
    var next := LoadSpec(pages, o, done + len);
    var got := LoadSpec(pages, o, done) + pages[idx][off..off + len];
    forall i | 0 <= i < done + len
      ensures got[i] == next[i]
    {
      if i >= done {
        DivModUnique(o + i, PAGE_SIZE, idx, off + i - done);
      }
    }
  }

  // ---------------------------------------------------------------------
  // The page-by-page copy loops
  // ---------------------------------------------------------------------

  /** The kmap load loop: bytes read from virt of an object at start, one page chunk at a time. */
  method KmapLoad(pages: seq<Page>, start: nat, virt: nat, bytes: nat, want: bool) returns (out: seq<u8>)
    requires PagesValid(pages) && start <= virt && virt + bytes <= start + |pages| * PAGE_SIZE
    ensures out == MappedLoad(pages, virt - start, bytes, want)
  {
    var o := virt - start;
    out := [];
    var cur := virt;
    var left: nat := bytes;
    while left > 0
      invariant cur + left == virt + bytes && virt <= cur
      invariant out == if want then LoadSpec(pages, o, cur - virt) else []
      decreases left
    {
      var idx := (cur - start) / PAGE_SIZE;
      var offset := (cur - start) - idx * PAGE_SIZE;
      PageSplit(cur - start);
      var len := ChunkLen(left, offset);
      left := left - len;
      if want {
        LoadStep(pages, o, cur - virt, len, idx, offset);
        out := out + pages[idx][offset..offset + len];
      }
      cur := cur + len;
    }
  }

  /** The kmap store loop: d written from virt of an object at start, one page chunk at a time. */
  method KmapStore(pages0: seq<Page>, start: nat, virt: nat, d: seq<u8>) returns (pages: seq<Page>)
    requires PagesValid(pages0) && start <= virt && virt + |d| <= start + |pages0| * PAGE_SIZE
    ensures pages == StoreSpec(pages0, virt - start, d)
  {
    var o := virt - start;
    pages := pages0;
    assert d[..0] == [];
    StoreNothing(pages0, o);
    var cur := virt;
    var left: nat := |d|;
    while left > 0
      invariant cur + left == virt + |d| && virt <= cur
      invariant pages == StoreSpec(pages0, o, d[..cur - virt])
      decreases left
    {
      var idx := (cur - start) / PAGE_SIZE;
      var offset := (cur - start) - idx * PAGE_SIZE;
      PageSplit(cur - start);
      var len := ChunkLen(left, offset);
      left := left - len;
      var src := cur - virt;
      StoreStep(pages0, o, d, src, len, idx, offset);
      pages := pages[idx := pages[idx][..offset] + d[src..src + len] + pages[idx][offset + len..]];
      cur := cur + len;
    }
    assert d[..|d|] == d;
  }

  /** The kmap memset loop: c written to bytes from virt of an object at start, one page chunk at a time. */
  method KmapSet(pages0: seq<Page>, start: nat, virt: nat, c: int, bytes: nat) returns (pages: seq<Page>)
    requires PagesValid(pages0) && start <= virt && virt + bytes <= start + |pages0| * PAGE_SIZE
    ensures pages == StoreSpec(pages0, virt - start, Fill(c, bytes))
  {
    var o := virt - start;
    var d := Fill(c, bytes);
    pages := pages0;
    assert d[..0] == [];
    StoreNothing(pages0, o);
    var cur := virt;
    var left: nat := bytes;
    while left > 0
      invariant cur + left == virt + bytes && virt <= cur
      invariant pages == StoreSpec(pages0, o, d[..cur - virt])
      decreases left
    {
      var idx := (cur - start) / PAGE_SIZE;
      var offset := (cur - start) - idx * PAGE_SIZE;
      PageSplit(cur - start);
      var len := ChunkLen(left, offset);
      left := left - len;
      StoreStep(pages0, o, d, cur - virt, len, idx, offset);
      assert d[cur - virt..cur - virt + len] == Fill(c, len);
      pages := pages[idx := pages[idx][..offset] + Fill(c, len) + pages[idx][offset + len..]];
      cur := cur + len;
    }
    assert d[..bytes] == d;
  }

  // ---------------------------------------------------------------------
  // Loads from a mapped object
  // ---------------------------------------------------------------------

  /**
   * load_and_flush on an object that is (or can be) vmapped, as written:
   * memcpy into the caller's buffer whatever it is; with no buffer (a
   * flush) and a nonzero length this dereferences NULL, modelled as None.
   */
  function MappedLoadAsWritten(pages: seq<Page>, o: nat, bytes: nat, want: bool): (r: Option<seq<u8>>)
    requires PagesValid(pages) && o + bytes <= |pages| * PAGE_SIZE
    ensures r.None? <==> !want && bytes > 0
    ensures r.Some? && want ==> |r.value| == bytes
  {
    if !want && bytes > 0 then None else Some(if want then LoadSpec(pages, o, bytes) else [])
  }

  /** A flush of one byte of a mapped object copies into NULL. */
  lemma FlushOfMappedCopiesToNull()
    ensures var page := seq(PAGE_SIZE, _ => 0);
            MappedLoadAsWritten([page], 0, 1, false).None?
  {
  }

  /** The mapped load that skips the copy when there is no buffer, as the kmap loop does. */
  function MappedLoad(pages: seq<Page>, o: nat, bytes: nat, want: bool): (r: seq<u8>)
    requires PagesValid(pages) && o + bytes <= |pages| * PAGE_SIZE
    ensures want ==> r == LoadSpec(pages, o, bytes)
    ensures !want ==> r == []
  {
    if want then LoadSpec(pages, o, bytes) else []
  }

  /** The corrected mapped load agrees with the written one wherever that one does not fault. */
  lemma MappedLoadAgrees(pages: seq<Page>, o: nat, bytes: nat, want: bool)
    requires PagesValid(pages) && o + bytes <= |pages| * PAGE_SIZE
    ensures MappedLoadAsWritten(pages, o, bytes, want).Some? ==>
              MappedLoadAsWritten(pages, o, bytes, want).value == MappedLoad(pages, o, bytes, want)
    ensures MappedLoadAsWritten(pages, o, bytes, want).None? <==> !want && bytes > 0
  {
  }

  // ---------------------------------------------------------------------
  // Allocation
  // ---------------------------------------------------------------------

  /** size_to_pgnr_ceil. */
  function PagesFor(bytes: nat): (pgnr: nat)
    ensures pgnr * PAGE_SIZE >= bytes && (pgnr == 0 || (pgnr - 1) * PAGE_SIZE < bytes)
  {
    (bytes + PAGE_SIZE - 1) / PAGE_SIZE
  }

  /** The steps __hmm_alloc takes, and their undoing. */
  datatype AllocStep = BoAlloc | AllocPages | Bind | Unbind | FreePages | Unref

  /** hmm_bo_unref undoes hmm_bo_alloc, hmm_bo_free_pages hmm_bo_alloc_pages, hmm_bo_unbind hmm_bo_bind. */
  function Undo(s: AllocStep): AllocStep
  {
    match s
    case BoAlloc => Unref
    case AllocPages => FreePages
    case Bind => Unbind
    case Unbind => Unbind
    case FreePages => FreePages
    case Unref => Unref
  }

  function Reverse<T>(s: seq<T>): (r: seq<T>)
    ensures |r| == |s| && forall i :: 0 <= i < |s| ==> r[i] == s[|s| - 1 - i]
  {
    if |s| == 0 then [] else Reverse(s[1..]) + [s[0]]
  }

  function MapUndo(s: seq<AllocStep>): (r: seq<AllocStep>)
    ensures |r| == |s| && forall i :: 0 <= i < |s| ==> r[i] == Undo(s[i])
  {
    seq(|s|, i requires 0 <= i < |s| => Undo(s[i]))
  }

  class Device {
    var bos: seq<Bo>

    predicate Valid()
      reads this
    {
      forall i :: 0 <= i < |bos| ==> BoValid(bos[i])
    }

    /**
     * What the driver's callers guarantee: a range that starts in an
     * object stays inside that object.
     */
    predicate FitsInBo(virt: nat, bytes: nat)
      reads this
    {
      var found := SearchInRange(bos, virt);
      found.Some? ==> virt + bytes <= bos[found.value].start + bos[found.value].pgnr * PAGE_SIZE
    }

    constructor ()
      ensures Valid() && bos == []
    {
      bos := [];
    }

    /**
     * load_and_flush_by_kmap: the checked object's bytes copied page by
     * page into the buffer, if there is one.
     */
    method LoadAndFlushByKmap(virt: nat, want: bool, bytes: nat) returns (ret: int, out: seq<u8>)
      requires Valid() && FitsInBo(virt, bytes)
      ensures ret == CheckBo(bos, SearchInRange(bos, virt))
      ensures ret != 0 ==> out == []
      ensures ret == 0 ==> var bo := bos[SearchInRange(bos, virt).value];
                           out == MappedLoad(bo.pages, virt - bo.start, bytes, want)
    {
      var found := SearchInRange(bos, virt);
      ret := CheckBo(bos, found);
      if ret != 0 {
        return ret, [];
      }
      var bo := bos[found.value];
      out := KmapLoad(bo.pages, bo.start, virt, bytes, want);
    }

    /**
     * load_and_flush: a mapped object (or one vmap can map, `vmapOk`) is
     * copied in one piece, anything else through the kmap loop.
     */
    method LoadAndFlush(virt: nat, want: bool, bytes: nat, vmapOk: bool) returns (ret: int, out: seq<u8>)
      requires Valid() && FitsInBo(virt, bytes)
      ensures ret == CheckBo(bos, SearchInRange(bos, virt))
      ensures ret != 0 ==> out == []
      ensures ret == 0 ==> var bo := bos[SearchInRange(bos, virt).value];
                           out == MappedLoad(bo.pages, virt - bo.start, bytes, want)
    {
      var found := SearchInRange(bos, virt);
      ret := CheckBo(bos, found);
      out := [];
      if ret != 0 {
        return;
      }
      var bo := bos[found.value];
      if bo.vmapped || vmapOk {
        out := MappedLoad(bo.pages, virt - bo.start, bytes, want);
      } else {
        ret, out := LoadAndFlushByKmap(virt, want, bytes);
      }
    }

    /** hmm_load: -EINVAL for a zero address or no buffer, before anything else. */
    method Load(virt: nat, data: bool, bytes: nat, vmapOk: bool) returns (ret: int, out: seq<u8>)
      requires Valid() && FitsInBo(virt, bytes)
      ensures virt == 0 || !data ==> ret == -EINVAL && out == []
      ensures virt != 0 && data ==>
                ret == CheckBo(bos, SearchInRange(bos, virt))
                && (ret == 0 ==> var bo := bos[SearchInRange(bos, virt).value];
                                 out == LoadSpec(bo.pages, virt - bo.start, bytes))
    {
      if virt == 0 {
        return -EINVAL, [];
      }
      if !data {
        return -EINVAL, [];
      }
      ret, out := LoadAndFlush(virt, true, bytes, vmapOk);
    }

    /** hmm_flush: a load with no destination. */
    method Flush(virt: nat, bytes: nat, vmapOk: bool) returns (ret: int)
      requires Valid() && FitsInBo(virt, bytes)
      ensures ret == CheckBo(bos, SearchInRange(bos, virt))
    {
      var out;
      ret, out := LoadAndFlush(virt, false, bytes, vmapOk);
    }

    /** The kmap store loop: d written from offset o of object bi, one page chunk at a time. */
    method StoreByKmap(bi: nat, virt: nat, d: seq<u8>)
      requires Valid() && bi < |bos| && bos[bi].start <= virt
      requires virt + |d| <= bos[bi].start + bos[bi].pgnr * PAGE_SIZE
      modifies this`bos
      ensures |bos| == |old(bos)| && Valid()
      ensures bos == old(bos)[bi := old(bos[bi]).(pages := StoreSpec(old(bos[bi].pages), virt - old(bos[bi].start), d))]
    {
      var bo := bos[bi];
      var pages := KmapStore(bo.pages, bo.start, virt, d);
      bos := bos[bi := bo.(pages := pages)];
    }

    /**
     * hmm_store: -EINVAL for a zero address or no data, then the checks,
     * then the bytes written through the vmap or page by page.
     */
    method Store(virt: nat, data: Option<seq<u8>>, bytes: nat, vmapOk: bool) returns (ret: int)
      requires Valid() && FitsInBo(virt, bytes)
      requires data.Some? ==> bytes <= |data.value|
      modifies this`bos
      ensures Valid() && |bos| == |old(bos)|
      ensures virt == 0 || data.None? ==> ret == -EINVAL && bos == old(bos)
      ensures virt != 0 && data.Some? ==> ret == CheckBo(old(bos), SearchInRange(old(bos), virt))
      ensures ret != 0 ==> bos == old(bos)
      ensures ret == 0 ==>
                var bi := SearchInRange(old(bos), virt).value;
                var bo := old(bos[bi]);
                bos == old(bos)[bi := bo.(pages := StoreSpec(bo.pages, virt - bo.start, data.value[..bytes]))]
    {
      if virt == 0 {
        return -EINVAL;
      }
      if data.None? {
        return -EINVAL;
      }
      var found := SearchInRange(bos, virt);
      ret := CheckBo(bos, found);
      if ret != 0 {
        return;
      }
      var bi := found.value;
      var bo := bos[bi];
      var d := data.value[..bytes];
      var o := virt - bo.start;
      if bo.vmapped {
        // The mapped copy falls through to the page loop, which writes the same bytes again.
        bos := bos[bi := bo.(pages := StoreSpec(bo.pages, o, d))];
        StoreTwice(bo.pages, o, d);
      } else if vmapOk {
        bos := bos[bi := bo.(pages := StoreSpec(bo.pages, o, d))];
        return 0;
      }
      StoreByKmap(bi, virt, d);
    }

    /** hmm_set: the checks, then c converted to unsigned char in every byte of the range. */
    method Set(virt: nat, c: int, bytes: nat, vmapOk: bool) returns (ret: int)
      requires Valid() && FitsInBo(virt, bytes)
      modifies this`bos
      ensures Valid() && |bos| == |old(bos)|
      ensures ret == CheckBo(old(bos), SearchInRange(old(bos), virt))
      ensures ret != 0 ==> bos == old(bos)
      ensures ret == 0 ==>
                var bi := SearchInRange(old(bos), virt).value;
                var bo := old(bos[bi]);
                bos == old(bos)[bi := bo.(pages := StoreSpec(bo.pages, virt - bo.start, Fill(c, bytes)))]
    {
      var found := SearchInRange(bos, virt);
      ret := CheckBo(bos, found);
      if ret != 0 {
        return;
      }
      var bi := found.value;
      var bo := bos[bi];
      var o := virt - bo.start;
      var d := Fill(c, bytes);
      var filled := StoreSpec(bo.pages, o, d);
      if bo.vmapped {
        // As in hmm_store, the mapped memset falls through to the page loop.
        bos := bos[bi := bo.(pages := filled)];
        SetByKmap(bi, virt, c, bytes);
        StoreTwice(bo.pages, o, d);
        assert bos[bi] == bo.(pages := filled);
      } else if vmapOk {
        bos := bos[bi := bo.(pages := filled)];
      } else {
        SetByKmap(bi, virt, c, bytes);
      }
    }

    /** The kmap memset loop: c written from offset o of object bi, one page chunk at a time. */
    method SetByKmap(bi: nat, virt: nat, c: int, bytes: nat)
      requires Valid() && bi < |bos| && bos[bi].start <= virt
      requires virt + bytes <= bos[bi].start + bos[bi].pgnr * PAGE_SIZE
      modifies this`bos
      ensures |bos| == |old(bos)| && Valid()
      ensures bos == old(bos)[bi := old(bos[bi]).(pages := StoreSpec(old(bos[bi].pages), virt - old(bos[bi].start), Fill(c, bytes)))]
    {
      var bo := bos[bi];
      var pages := KmapSet(bo.pages, bo.start, virt, c, bytes);
      bos := bos[bi := bo.(pages := pages)];
    }

    /**
     * hmm_virt_to_phys: the page's physical address plus the offset in it,
     * or (phys_addr_t)-1 when no object holds the address.
     */
    function VirtToPhys(virt: nat): (r: int)
      requires Valid()
      reads this
      ensures SearchInRange(bos, virt).None? ==> r == U64_LIMIT - 1
      ensures SearchInRange(bos, virt).Some? ==>
                var bo := bos[SearchInRange(bos, virt).value];
                var idx, offset := (virt - bo.start) / PAGE_SIZE, (virt - bo.start) % PAGE_SIZE;
                idx < bo.pgnr && idx * PAGE_SIZE + offset == virt - bo.start
                && r == bo.pfns[idx] * PAGE_SIZE + offset
    {
      var found := SearchInRange(bos, virt);
      if found.None? then U64_LIMIT - 1
      else
        var bo := bos[found.value];
        var idx := (virt - bo.start) / PAGE_SIZE;
        var offset := (virt - bo.start) - idx * PAGE_SIZE;
        PageSplit(virt - bo.start);
        bo.pfns[idx] * PAGE_SIZE + offset
    }

    /**
     * __hmm_alloc: a ceiling page count, then the object, its pages and its
     * binding. `start` is what hmm_bo_alloc hands out (None when it
     * fails); `pagesOk` and `bindOk` are the outcomes of the next two
     * steps. A failure undoes the completed steps in reverse order and
     * returns 0.
     */
    method Alloc(bytes: nat, start: Option<nat>, pagesOk: bool, bindOk: bool,
                 pages: seq<Page>, pfns: seq<nat>) returns (ret: nat, steps: seq<AllocStep>)
      requires Valid() && PagesValid(pages)
      requires |pages| == PagesFor(bytes) && |pfns| == PagesFor(bytes)
      modifies this`bos
      ensures Valid()
      ensures start.Some? && pagesOk && bindOk ==>
                ret == start.value && steps == [BoAlloc, AllocPages, Bind]
                && bos == old(bos) + [Bo(start.value, PagesFor(bytes), pages, pfns, true, true, false)]
      ensures var n := FailingStep(start.Some?, pagesOk, bindOk);
              n <= 3 ==> ret == 0 && bos == old(bos) && steps == AllocSteps(n) + Reverse(MapUndo(AllocSteps(n - 1)))
    {
      var pgnr := PagesFor(bytes);
      steps := [BoAlloc];
      if start.None? {
        assert steps == AllocSteps(1) + Reverse(MapUndo(AllocSteps(0)));
        return 0, steps;
      }
      steps := steps + [AllocPages];
      if !pagesOk {
        steps := steps + [Unref];
        assert steps == AllocSteps(2) + Reverse(MapUndo(AllocSteps(1)));
        return 0, steps;
      }
      steps := steps + [Bind];
      if !bindOk {
        steps := steps + [FreePages, Unref];
        assert steps == AllocSteps(3) + Reverse(MapUndo(AllocSteps(2)));
        return 0, steps;
      }
      bos := bos + [Bo(start.value, pgnr, pages, pfns, true, true, false)];
      return start.value, steps;
    }
  }

  /** The first n steps __hmm_alloc attempts. */
  function AllocSteps(n: nat): seq<AllocStep>
    requires n <= 3
  {
    [BoAlloc, AllocPages, Bind][..n]
  }

  /** The step __hmm_alloc fails at, 1-based; 4 when none fails. */
  function FailingStep(boOk: bool, pagesOk: bool, bindOk: bool): nat
  {
    if !boOk then 1 else if !pagesOk then 2 else if !bindOk then 3 else 4
  }
}
