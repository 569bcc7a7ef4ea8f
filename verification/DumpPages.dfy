/** The page section of a kdump-compressed dump: descriptors and page data, each written through a
    cache. */
module DumpPages {
  import opened Values
  import opened FileImage
  import opened DumpBitmap

  const BUFSIZE_DATA_CACHE: nat := PAGE_SIZE * 4
  const DESCRIPTOR_SIZE: nat := 24

  datatype Descriptor = Descriptor(offset: nat, size: nat, flags: nat)

  predicate AllZero(page: seq<Byte>) {
    forall i :: 0 <= i < |page| ==> page[i] == 0
  }

  function Zeros(): (z: seq<Byte>)
    ensures |z| == PAGE_SIZE && AllZero(z)
  {
    seq(PAGE_SIZE, _ => 0)
  }

  // ---- A cache over part of the file ----

  lemma PieceInFile(file: map<nat, Byte>, start: nat, log: seq<Byte>, at: nat, bytes: seq<Byte>)
    requires Holds(file, start, log) && Piece(log, at, bytes)
    ensures Holds(file, start + at, bytes)
  {
    forall p | start + at <= p < start + at + |bytes| ensures p in file && file[p] == bytes[p - (start + at)] {
      var q := p - start;
      assert log[q] == bytes[q - at];
    }
  }

  /** What was put into a cache, `log`, is in the file up to `offset` and in the buffer after that. */
  ghost predicate Flattens(file: map<nat, Byte>, start: nat, log: seq<Byte>, offset: nat, held: seq<Byte>) {
    && start <= offset && |log| == offset - start + |held|
    && Holds(file, start, log[..offset - start]) && log[offset - start..] == held
  }

  lemma FlattensFlush(file: map<nat, Byte>, file': map<nat, Byte>, start: nat, log: seq<Byte>, offset: nat,
                      held: seq<Byte>)
    requires Flattens(file, start, log, offset, held) && WrittenAt(file, file', offset, held)
    ensures Flattens(file', start, log, offset + |held|, [])
  {
    var done := offset - start;
    assert log[..|log|] == log;
    forall p | start <= p < start + |log| ensures p in file' && file'[p] == log[p - start] {
      var q := p - start;
      if q < done {
        assert log[..done][q] == log[q];
      } else {
        assert held[q - done] == log[q];
      }
    }
  }

  lemma FlattensPut(file: map<nat, Byte>, start: nat, log: seq<Byte>, offset: nat, held: seq<Byte>, data: seq<Byte>)
    requires Flattens(file, start, log, offset, held)
    ensures Flattens(file, start, log + data, offset, held + data)
  {
    assert (log + data)[..offset - start] == log[..offset - start];
    assert (log + data)[offset - start..] == log[offset - start..] + data;
  }

  lemma FlattensStays(file: map<nat, Byte>, file': map<nat, Byte>, start: nat, log: seq<Byte>, offset: nat,
                      held: seq<Byte>, from: nat, to: nat)
    requires Flattens(file, start, log, offset, held) && SameOutside(file, file', from, to)
    requires to <= start || start + |log| <= from
    ensures Flattens(file', start, log, offset, held)
  {
  }

  lemma NothingFlattens(file: map<nat, Byte>, start: nat)
    ensures Flattens(file, start, [], start, [])
  {
  }

  /** A cache: its buffer, how much of it is filled and the file offset its start belongs to; `start`
      and `log` tell what was put into it. */
  class DataCache {
    const buf: array<Byte>
    var dataSize: nat
    var offset: nat
    ghost const start: nat
    ghost var log: seq<Byte>

    ghost predicate Valid(file: map<nat, Byte>)
      reads this, buf
    {
      buf.Length == BUFSIZE_DATA_CACHE && dataSize <= buf.Length && Flattens(file, start, log, offset, buf[..dataSize])
    }

    /** Nothing was put in yet. */
    ghost predicate Empty()
      reads this
    {
      buf.Length == BUFSIZE_DATA_CACHE && dataSize == 0 && offset == start && log == []
    }

    /** `prepare_data_cache`. */
    constructor (offset: nat)
      ensures start == offset && Empty() && fresh(buf)
    {
      buf := new Byte[BUFSIZE_DATA_CACHE](_ => 0);
      dataSize, this.offset, start, log := 0, offset, offset, [];
    }

    /** The buffer goes to the file. */
    method Flush(f: DumpFile)
      requires Valid(f.Image())
      modifies f`runs, this`dataSize, this`offset
      ensures Valid(f.Image()) && dataSize == 0 && Holds(f.Image(), start, log)
      ensures SameOutside(old(f.Image()), f.Image(), start, start + |log|)
    {
      ghost var before := f.Image();
      f.Write(offset, buf[..dataSize]);
      FlattensFlush(before, f.Image(), start, log, offset, buf[..dataSize]);
      offset, dataSize := offset + dataSize, 0;
      assert buf[..dataSize] == [] && log[..offset - start] == log;
    }

    /** `write_cache`: the data follow what was put in before; a sync brings it all to the file. */
    method WriteCache(f: DumpFile, data: seq<Byte>, sync: bool)
      requires Valid(f.Image()) && |data| <= BUFSIZE_DATA_CACHE
      modifies f`runs, this`dataSize, this`offset, this`log, buf
      ensures Valid(f.Image()) && log == old(log) + (if sync then [] else data)
      ensures SameOutside(old(f.Image()), f.Image(), start, start + |old(log)|)
      ensures sync ==> Holds(f.Image(), start, log)
      ensures (if sync then old(dataSize) == 0 else old(dataSize) + |data| <= buf.Length) ==> f.runs == old(f.runs)
    {
      if (!sync && dataSize + |data| > buf.Length) || (sync && dataSize > 0) {
        Flush(f);
      }
      if !sync {
        Append(f, data);
      }
    }

    method Append(ghost f: DumpFile, data: seq<Byte>)
      requires Valid(f.Image()) && dataSize + |data| <= buf.Length
      modifies this`dataSize, this`log, buf
      ensures Valid(f.Image()) && log == old(log) + data
    {
      ghost var held := buf[..dataSize];
      forall i | dataSize <= i < dataSize + |data| {
        buf[i] := data[i - dataSize];
      }
      assert buf[..dataSize + |data|] == held + data;
      FlattensPut(f.Image(), start, log, offset, held, data);
      dataSize, log := dataSize + |data|, log + data;
    }
  }

  // ---- Pages and their descriptors ----

  /** How a dump stores pages: the bytes and the flag of the compression, and the descriptor's bytes
      in the dump's byte order. */
  datatype Coding = Coding(compress: seq<Byte> -> Option<seq<Byte>>, flag: nat, order: Descriptor -> seq<Byte>)

  ghost predicate CodingOk(code: Coding) {
    forall d :: |code.order(d)| == DESCRIPTOR_SIZE
  }

  /** The bytes a page is stored as: compressed if that is shorter, plain otherwise. */
  function StoredBytes(code: Coding, page: seq<Byte>): (r: seq<Byte>)
    requires |page| == PAGE_SIZE
    ensures |r| <= PAGE_SIZE
  {
    if page == Zeros() then page else
      match code.compress(page)
      case Some(z) => if |z| < PAGE_SIZE then z else page
      case None => page
  }

  function StoredFlags(code: Coding, page: seq<Byte>): nat
    requires |page| == PAGE_SIZE
  {
    if page == Zeros() then 0 else
      match code.compress(page)
      case Some(z) => if |z| < PAGE_SIZE then code.flag else 0
      case None => 0
  }

  /** The descriptor names the page's stored bytes in the data that begin at `start`; a zero page's
      are the first ones. */
  ghost predicate DescriptorOk(code: Coding, d: Descriptor, page: seq<Byte>, start: nat, data: seq<Byte>) {
    && |page| == PAGE_SIZE && start <= d.offset
    && d.size == |StoredBytes(code, page)| && d.flags == StoredFlags(code, page)
    && Piece(data, d.offset - start, StoredBytes(code, page)) && (page == Zeros() ==> d.offset == start)
  }

  /** Descriptor i, in the descriptors' bytes, is right for page i. */
  ghost predicate NthOk(code: Coding, ds: seq<Descriptor>, pages: seq<seq<Byte>>, i: nat, descs: seq<Byte>,
                        start: nat, data: seq<Byte>)
    requires i < |ds| == |pages|
  {
    Piece(descs, DESCRIPTOR_SIZE * i, code.order(ds[i])) && DescriptorOk(code, ds[i], pages[i], start, data)
  }

  ghost predicate AllOk(code: Coding, ds: seq<Descriptor>, pages: seq<seq<Byte>>, descs: seq<Byte>, start: nat,
                        data: seq<Byte>) {
    && |ds| == |pages| && |descs| == DESCRIPTOR_SIZE * |ds|
    && Piece(data, 0, Zeros())
    && forall i :: 0 <= i < |ds| ==> NthOk(code, ds, pages, i, descs, start, data)
  }

  lemma NthMore(code: Coding, ds: seq<Descriptor>, pages: seq<seq<Byte>>, i: nat, descs: seq<Byte>, start: nat,
                data: seq<Byte>, d: Descriptor, page: seq<Byte>, more: seq<Byte>)
    requires i < |ds| == |pages| && NthOk(code, ds, pages, i, descs, start, data)
    ensures NthOk(code, ds + [d], pages + [page], i, descs + code.order(d), start, data + more)
  {
    PieceMore(descs, code.order(d), DESCRIPTOR_SIZE * i, code.order(ds[i]));
    PieceMore(data, more, ds[i].offset - start, StoredBytes(code, pages[i]));
  }

  /** One more page, whose stored bytes are in the data by then. */
  lemma OneMorePage(code: Coding, ds: seq<Descriptor>, pages: seq<seq<Byte>>, descs: seq<Byte>, start: nat,
                    data: seq<Byte>, d: Descriptor, page: seq<Byte>, more: seq<Byte>)
    requires CodingOk(code) && AllOk(code, ds, pages, descs, start, data)
    requires DescriptorOk(code, d, page, start, data + more)
    ensures AllOk(code, ds + [d], pages + [page], descs + code.order(d), start, data + more)
  {
    PieceMore(data, more, 0, Zeros());
    forall i | 0 <= i <= |ds|
      ensures NthOk(code, ds + [d], pages + [page], i, descs + code.order(d), start, data + more)
    {
      if i < |ds| {
        NthMore(code, ds, pages, i, descs, start, data, d, page, more);
      }
    }
  }

  /** Compression makes the page shorter; zero pages are not compressed. */
  predicate Shrinks(code: Coding, page: seq<Byte>) {
    !AllZero(page) && code.compress(page).Some? && |code.compress(page).value| < PAGE_SIZE
  }

  /** The descriptor names the page's bytes in the file: compressed and flagged exactly if the page shrinks,
      else the page itself. */
  ghost predicate PageAt(code: Coding, file: map<nat, Byte>, d: Descriptor, page: seq<Byte>) {
    if Shrinks(code, page) then
      var z := code.compress(page).value;
      d.flags == code.flag && d.size == |z| && Holds(file, d.offset, z)
    else
      d.flags == 0 && d.size == PAGE_SIZE && Holds(file, d.offset, page)
  }

  /** In the file, descriptor i names the page; every zero page has the offset `zero`. */
  ghost predicate Described(code: Coding, file: map<nat, Byte>, offsetPage: nat, i: nat, page: seq<Byte>, zero: nat) {
    exists d ::
      && Holds(file, offsetPage + DESCRIPTOR_SIZE * i, code.order(d))
      && PageAt(code, file, d, page) && (AllZero(page) ==> d.offset == zero)
  }

  lemma StoredAsPage(code: Coding, file: map<nat, Byte>, d: Descriptor, page: seq<Byte>)
    requires |page| == PAGE_SIZE && Holds(file, d.offset, StoredBytes(code, page))
    requires d.size == |StoredBytes(code, page)| && d.flags == StoredFlags(code, page)
    ensures PageAt(code, file, d, page) && (AllZero(page) <==> page == Zeros())
  {
  }

  /** The bytes of the file in a range that it has. */
  function Slice(file: map<nat, Byte>, at: nat, n: nat): seq<Byte>
    requires forall p :: at <= p < at + n ==> p in file
  {
    seq(n, i requires 0 <= i < n => file[at + i])
  }

  /** A reader that can undo the compression gets each page back from its descriptor. */
  lemma PageReadsBack(code: Coding, inflate: seq<Byte> -> seq<Byte>, file: map<nat, Byte>, d: Descriptor,
                      page: seq<Byte>)
    requires |page| == PAGE_SIZE && code.flag != 0 && PageAt(code, file, d, page)
    requires code.compress(page).Some? ==> inflate(code.compress(page).value) == page
    ensures forall p :: d.offset <= p < d.offset + d.size ==> p in file
    ensures var bytes := Slice(file, d.offset, d.size);
      page == if d.flags == code.flag then inflate(bytes) else bytes
  {
    var bytes := Slice(file, d.offset, d.size);
    assert Shrinks(code, page) ==> bytes == code.compress(page).value;
  }

  lemma NthDescribed(code: Coding, ds: seq<Descriptor>, pages: seq<seq<Byte>>, i: nat, descs: seq<Byte>, start: nat,
                     data: seq<Byte>, file: map<nat, Byte>, offsetPage: nat)
    requires AllOk(code, ds, pages, descs, start, data) && i < |ds|
    requires Holds(file, offsetPage, descs) && Holds(file, start, data)
    ensures |pages[i]| == PAGE_SIZE && Described(code, file, offsetPage, i, pages[i], start)
  {
    assert NthOk(code, ds, pages, i, descs, start, data);
    PieceInFile(file, offsetPage, descs, DESCRIPTOR_SIZE * i, code.order(ds[i]));
    PieceInFile(file, start, data, ds[i].offset - start, StoredBytes(code, pages[i]));
    StoredAsPage(code, file, ds[i], pages[i]);
  }

  lemma NoPages(code: Coding, start: nat, data: seq<Byte>)
    requires data == [] + Zeros()
    ensures AllOk(code, [], [], [], start, data)
  {
  }

  /** The page section being written: the file, the two caches and the offset of the next page's data;
      `ds` and `pages` tell what was put in. */
  class PageWriter {
    const f: DumpFile
    const desc: DataCache
    const data: DataCache
    const code: Coding
    const zeroOffset: nat
    var offsetData: nat
    ghost const total: nat
    ghost var ds: seq<Descriptor>
    ghost var pages: seq<seq<Byte>>

    ghost predicate Valid()
      reads this, f, desc, desc.buf, data, data.buf
    {
      && desc != data && desc.buf != data.buf && CodingOk(code)
      && desc.Valid(f.Image()) && data.Valid(f.Image())
      && desc.start + DESCRIPTOR_SIZE * total == data.start == zeroOffset && |ds| <= total
      && AllOk(code, ds, pages, desc.log, data.start, data.log)
      && offsetData == data.start + |data.log|
    }

    /** The start of `write_dump_pages`: the caches. */
    constructor (f: DumpFile, offsetPage: nat, numDumpable: nat, code: Coding)
      requires CodingOk(code)
      ensures Prepared() && fresh(desc) && fresh(desc.buf) && fresh(data) && fresh(data.buf) && this.f == f
      ensures this.code == code
      ensures desc.start == offsetPage && total == numDumpable && ds == [] && pages == []
    {
      this.f, this.code, total, ds, pages := f, code, numDumpable, [], [];
      desc := new DataCache(offsetPage);
      data := new DataCache(offsetPage + DESCRIPTOR_SIZE * numDumpable);
      zeroOffset := offsetPage + DESCRIPTOR_SIZE * numDumpable;
      offsetData := offsetPage + DESCRIPTOR_SIZE * numDumpable;
    }

    /** Both caches are empty. */
    ghost predicate Prepared()
      reads this, f, desc, desc.buf, data, data.buf
    {
      && desc != data && desc.buf != data.buf && CodingOk(code)
      && desc.Empty() && data.Empty()
      && desc.start + DESCRIPTOR_SIZE * total == data.start == zeroOffset == offsetData && ds == [] && pages == []
    }

    /** The one copy of the zero page. */
    method PutZeroPage()
      requires Prepared()
      modifies this`offsetData, f`runs, data`dataSize, data`offset, data`log, data.buf
      ensures Valid() && SameBefore(old(f.Image()), f.Image(), desc.start)
    {
      NothingFlattens(f.Image(), data.start);
      assert data.buf[..0] == [];
      data.WriteCache(f, Zeros(), false);
      NothingFlattens(f.Image(), desc.start);
      assert desc.buf[..0] == [];
      NoPages(code, data.start, data.log);
      offsetData := offsetData + PAGE_SIZE;
    }

    /** The bytes of a page go to the data. */
    method PutData(bytes: seq<Byte>)
      requires Valid() && |bytes| <= PAGE_SIZE
      modifies f`runs, data`dataSize, data`offset, data`log, data.buf
      ensures desc.Valid(f.Image()) && data.Valid(f.Image()) && data.log == old(data.log) + bytes
      ensures SameBefore(old(f.Image()), f.Image(), desc.start)
    {
      ghost var before := f.Image();
      data.WriteCache(f, bytes, false);
      FlattensStays(before, f.Image(), desc.start, desc.log, desc.offset, desc.buf[..desc.dataSize],
        data.start, data.start + |old(data.log)|);
    }

    /** A descriptor goes to the descriptors. */
    method PutDescriptor(d: Descriptor)
      requires desc != data && desc.buf != data.buf && CodingOk(code) && desc.Valid(f.Image()) && data.Valid(f.Image())
      requires desc.start + |desc.log| <= data.start
      modifies f`runs, desc`dataSize, desc`offset, desc`log, desc.buf
      ensures desc.Valid(f.Image()) && data.Valid(f.Image()) && desc.log == old(desc.log) + code.order(d)
      ensures SameBefore(old(f.Image()), f.Image(), desc.start)
    {
      ghost var before := f.Image();
      desc.WriteCache(f, code.order(d), false);
      FlattensStays(before, f.Image(), data.start, data.log, data.offset, data.buf[..data.dataSize],
        desc.start, desc.start + |old(desc.log)|);
    }

    /** The data of a page, unless it is the zero page; the descriptor is right for the data then. */
    method StorePage(page: seq<Byte>) returns (d: Descriptor, ghost more: seq<Byte>)
      requires Valid() && |page| == PAGE_SIZE
      modifies this`offsetData, f`runs, data`dataSize, data`offset, data`log, data.buf
      ensures desc.Valid(f.Image()) && data.Valid(f.Image()) && data.log == old(data.log) + more
      ensures offsetData == data.start + |data.log| && SameBefore(old(f.Image()), f.Image(), desc.start)
      ensures DescriptorOk(code, d, page, zeroOffset, data.log)
    {
      d, more := Descriptor(zeroOffset, PAGE_SIZE, 0), [];
      ghost var before := data.log;
      if page != Zeros() {
        var bytes, flags := page, 0;
        var z := code.compress(page);
        if z.Some? && |z.value| < PAGE_SIZE {
          bytes, flags := z.value, code.flag;
        }
        PutData(bytes);
        d := Descriptor(offsetData, |bytes|, flags);
        offsetData := offsetData + |bytes|;
        more := bytes;
      }
      assert data.log == before + more;
    }

    /** One page of the loop of `write_dump_pages`. */
    method PutPage(page: seq<Byte>)
      requires Valid() && |page| == PAGE_SIZE && |ds| < total
      modifies this`offsetData, this`ds, this`pages, f`runs
      modifies desc`dataSize, desc`offset, desc`log, desc.buf, data`dataSize, data`offset, data`log, data.buf
      ensures Valid() && pages == old(pages) + [page] && SameBefore(old(f.Image()), f.Image(), desc.start)
    {
      ghost var before := data.log;
      var d, more := StorePage(page);
      PutDescriptor(d);
      OneMorePage(code, ds, pages, old(desc.log), zeroOffset, before, d, page, more);
      ds, pages := ds + [d], pages + [page];
    }

    /** The end of `write_dump_pages`: both caches are synced. */
    method Finish()
      requires Valid()
      modifies f`runs, desc`dataSize, desc`offset, desc`log, desc.buf, data`dataSize, data`offset, data`log, data.buf
      ensures Valid() && Holds(f.Image(), desc.start, desc.log) && Holds(f.Image(), data.start, data.log)
      ensures SameBefore(old(f.Image()), f.Image(), desc.start)
    {
      ghost var file0, log0 := f.Image(), desc.log;
      desc.WriteCache(f, [], true);
      assert desc.log == log0;
      FlattensStays(file0, f.Image(), data.start, data.log, data.offset, data.buf[..data.dataSize],
        desc.start, desc.start + |log0|);
      ghost var file1, log1 := f.Image(), data.log;
      data.WriteCache(f, [], true);
      assert data.log == log1;
      FlattensStays(file1, f.Image(), desc.start, desc.log, desc.offset, desc.buf[..desc.dataSize],
        data.start, data.start + |log1|);
    }
  }

  // ---- The whole page section ----

  lemma {:induction false} CountGrows(blocks: seq<PageBlock>, j: nat, k: nat)
    requires BlocksOk(blocks) && j <= k <= |blocks|
    ensures Count(blocks, j) <= Count(blocks, k)
    decreases k - j
  {
    if j < k {
      CountGrows(blocks, j, k - 1);
    }
  }

  lemma IndexBelow(blocks: seq<PageBlock>, k: nat, p: nat, n: nat)
    requires BlocksOk(blocks) && On(blocks, k, p) && k < n <= |blocks|
    ensures Index(blocks, k, p) < Count(blocks, n)
  {
    CountGrows(blocks, k + 1, n);
  }

  /** Different pages have different descriptors. */
  lemma IndexUnique(blocks: seq<PageBlock>, j: nat, p: nat, k: nat, q: nat)
    requires BlocksOk(blocks) && On(blocks, j, p) && On(blocks, k, q) && Index(blocks, j, p) == Index(blocks, k, q)
    ensures p == q
  {
    if j < k {
      IndexBelow(blocks, j, p, k);
    } else if k < j {
      IndexBelow(blocks, k, q, j);
    }
  }

  /** The pages put in so far are those enumerated, in that order. */
  ghost predicate InOrder(blocks: seq<PageBlock>, content: nat -> seq<Byte>, pages: seq<seq<Byte>>)
    requires BlocksOk(blocks)
  {
    forall k, p :: On(blocks, k, p) && Index(blocks, k, p) < |pages| ==> pages[Index(blocks, k, p)] == content(p)
  }

  lemma InOrderNext(blocks: seq<PageBlock>, content: nat -> seq<Byte>, pages: seq<seq<Byte>>, k: nat, p: nat)
    requires BlocksOk(blocks) && InOrder(blocks, content, pages) && On(blocks, k, p) && Index(blocks, k, p) == |pages|
    ensures InOrder(blocks, content, pages + [content(p)])
  {
    forall j, q | On(blocks, j, q) && Index(blocks, j, q) <= |pages|
      ensures (pages + [content(p)])[Index(blocks, j, q)] == content(q)
    {
      if Index(blocks, j, q) == |pages| {
        IndexUnique(blocks, j, q, k, p);
      }
    }
  }

  /** Every page of every block has, at its place in the enumeration, a descriptor that names its bytes;
      all zero pages share the copy at `zero`. */
  ghost predicate PagesOk(code: Coding, file: map<nat, Byte>, offsetPage: nat, blocks: seq<PageBlock>,
                          content: nat -> seq<Byte>, zero: nat)
    requires BlocksOk(blocks)
  {
    forall k, p :: On(blocks, k, p) ==> Described(code, file, offsetPage, Index(blocks, k, p), content(p), zero)
  }

  lemma AllDescribed(code: Coding, ds: seq<Descriptor>, pages: seq<seq<Byte>>, descs: seq<Byte>, start: nat,
                     data: seq<Byte>,
                     file: map<nat, Byte>, offsetPage: nat, blocks: seq<PageBlock>, content: nat -> seq<Byte>)
    requires BlocksOk(blocks) && (forall p :: |content(p)| == PAGE_SIZE) && AllOk(code, ds, pages, descs, start, data)
    requires Holds(file, offsetPage, descs) && Holds(file, start, data)
    requires InOrder(blocks, content, pages) && |pages| == Count(blocks, |blocks|)
    ensures PagesOk(code, file, offsetPage, blocks, content, start)
  {
    forall k, p | On(blocks, k, p) ensures Described(code, file, offsetPage, Index(blocks, k, p), content(p), start) {
      IndexBelow(blocks, k, p, |blocks|);
      NthDescribed(code, ds, pages, Index(blocks, k, p), descs, start, data, file, offsetPage);
    }
  }

  /** The loop of `write_dump_pages`. */
  method PutPages(w: PageWriter, blocks: seq<PageBlock>, content: nat -> seq<Byte>)
    requires BlocksOk(blocks) && (forall p :: |content(p)| == PAGE_SIZE)
    requires w.Valid() && w.pages == [] && w.total == Count(blocks, |blocks|)
    modifies w`offsetData, w`ds, w`pages, w.f`runs
    modifies w.desc`dataSize, w.desc`offset, w.desc`log, w.desc.buf,
      w.data`dataSize, w.data`offset, w.data`log, w.data.buf
    ensures w.Valid() && InOrder(blocks, content, w.pages) && |w.pages| == Count(blocks, |blocks|)
    ensures SameBefore(old(w.f.Image()), w.f.Image(), w.desc.start)
  {
    var more, c := true, Start;
    while more
      invariant w.Valid() && InOrder(blocks, content, w.pages)
      invariant SameBefore(old(w.f.Image()), w.f.Image(), w.desc.start)
      invariant c.At? ==> On(blocks, c.block, c.pfn)
      invariant |w.pages| == Passed(blocks, c) && (!more ==> |w.pages| == Count(blocks, |blocks|))
      decreases more, Count(blocks, |blocks|) - |w.pages|
    {
      var c';
      more, c' := GetNextPage(blocks, c);
      if more {
        IndexBelow(blocks, c'.block, c'.pfn, |blocks|);
        InOrderNext(blocks, content, w.pages, c'.block, c'.pfn);
        w.PutPage(content(c'.pfn));
        c := c';
      }
    }
  }

  /** `write_dump_pages`, for as many pages as `write_dump_bitmap` counted. */
  method WriteDumpPages(f: DumpFile, blocks: seq<PageBlock>, content: nat -> seq<Byte>, offsetPage: nat,
                        numDumpable: nat, code: Coding)
    requires BlocksOk(blocks) && CodingOk(code) && (forall p :: |content(p)| == PAGE_SIZE)
    requires numDumpable == Count(blocks, |blocks|)
    modifies f`runs
    ensures PagesOk(code, f.Image(), offsetPage, blocks, content, offsetPage + DESCRIPTOR_SIZE * numDumpable)
    ensures SameBefore(old(f.Image()), f.Image(), offsetPage)
  {
    var w := new PageWriter(f, offsetPage, numDumpable, code);
    w.PutZeroPage();
    PutPages(w, blocks, content);
    w.Finish();
    AllDescribed(code, w.ds, w.pages, w.desc.log, w.data.start, w.data.log, f.Image(), offsetPage, blocks, content);
  }
}
