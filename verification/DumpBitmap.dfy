/** The page enumeration and the two page bitmaps of a kdump-compressed dump. */
module DumpBitmap {
  import opened Values
  import opened Arith
  import opened FileImage

  const CHAR_BIT: nat := 8

  /** How many bits the bitmap buffer, of one page, holds. */
  const PFN_BUFBITMAP: nat := CHAR_BIT * PAGE_SIZE

  /** A run of guest-physical pages [first, last). */
  datatype PageBlock = PageBlock(first: nat, last: nat)

  /** Blocks are not empty and lie in ascending order, as the memory listener makes them. */
  ghost predicate BlocksOk(blocks: seq<PageBlock>) {
    && blocks != []
    && (forall k :: 0 <= k < |blocks| ==> blocks[k].first < blocks[k].last)
    && (forall j, k :: 0 <= j < k < |blocks| ==> blocks[j].last <= blocks[k].first)
  }

  predicate InBlock(b: PageBlock, p: nat) { b.first <= p < b.last }

  /** Page p is in some block. */
  ghost predicate Exists(blocks: seq<PageBlock>, p: nat) {
    exists k :: 0 <= k < |blocks| && InBlock(blocks[k], p)
  }

  /** The number of pages in the first k blocks. */
  ghost function Count(blocks: seq<PageBlock>, k: nat): nat
    requires k <= |blocks| && BlocksOk(blocks)
  {
    if k == 0 then 0 else Count(blocks, k - 1) + (blocks[k - 1].last - blocks[k - 1].first)
  }

  /** The cursor of the enumeration stands on page pfn of block k. */
  ghost predicate On(blocks: seq<PageBlock>, k: nat, pfn: nat) {
    k < |blocks| && InBlock(blocks[k], pfn)
  }

  /** How many pages the enumeration passed before page pfn of block k. */
  ghost function Index(blocks: seq<PageBlock>, k: nat, pfn: nat): nat
    requires BlocksOk(blocks) && On(blocks, k, pfn)
  {
    Count(blocks, k) + (pfn - blocks[k].first)
  }

  datatype Cursor = Start | At(block: nat, pfn: nat)

  /** The number of pages enumerated so far. */
  ghost function Passed(blocks: seq<PageBlock>, c: Cursor): nat
    requires BlocksOk(blocks) && (c.At? ==> On(blocks, c.block, c.pfn))
  {
    if c.Start? then 0 else Index(blocks, c.block, c.pfn) + 1
  }

  /** `get_next_page`: on to the next page, in ascending order and leaving out none; false exactly
      after the last. */
  method GetNextPage(blocks: seq<PageBlock>, c: Cursor) returns (more: bool, c': Cursor)
    requires BlocksOk(blocks) && (c.At? ==> On(blocks, c.block, c.pfn))
    ensures more ==> c'.At? && On(blocks, c'.block, c'.pfn) && Passed(blocks, c') == Passed(blocks, c) + 1
    ensures more && c.At? ==> c.pfn < c'.pfn
    ensures more ==> forall p: nat :: p < c'.pfn && (c.At? ==> c.pfn < p) ==> !Exists(blocks, p)
    ensures !more ==>
      c.At? && Passed(blocks, c) == Count(blocks, |blocks|)
      && forall p: nat :: c.pfn < p ==> !Exists(blocks, p)
    ensures !more ==> c.pfn == blocks[|blocks| - 1].last - 1
  {
    if c.Start? {
      return true, At(0, blocks[0].first);
    }
    var pfn := c.pfn + 1;
    if blocks[c.block].first <= pfn && pfn + 1 <= blocks[c.block].last {
      return true, At(c.block, pfn);
    }
    var next := c.block + 1;
    if next == |blocks| {
      return false, c;
    }
    return true, At(next, blocks[next].first);
  }

  // ---- The two bitmaps ----

  /** The byte is number i of the bitmap of `pages`: bit k is set exactly if page 8 * i + k is there. */
  ghost predicate ByteFor(b: nat, i: nat, pages: set<nat>) {
    forall k :: 0 <= k < CHAR_BIT ==> Bit(b, k) == (CHAR_BIT * i + k in pages)
  }

  /** The first `upto` bytes of the bitmap at `base` are in the file. */
  ghost predicate Copied(file: map<nat, Byte>, base: nat, upto: nat, pages: set<nat>) {
    forall p :: base <= p < base + upto ==> p in file && ByteFor(file[p], p - base, pages)
  }

  /** The buffer holds the bytes from `at` on, and no later page is in `pages`. */
  ghost predicate Buffered(buf: seq<Byte>, at: nat, pages: set<nat>) {
    && |buf| == PAGE_SIZE
    && (forall j :: 0 <= j < |buf| ==> ByteFor(buf[j], at + j, pages))
    && (forall p :: p in pages ==> p < CHAR_BIT * (at + |buf|))
  }

  /** Writing the buffer brings the bitmap forward by a buffer. */
  lemma CopiedMore(file: map<nat, Byte>, file': map<nat, Byte>, base: nat, at: nat, buf: seq<Byte>, pages: set<nat>)
    requires Copied(file, base, at, pages) && Buffered(buf, at, pages) && WrittenAt(file, file', base + at, buf)
    ensures Copied(file', base, at + |buf|, pages)
  {
    forall p | base <= p < base + at + |buf| ensures p in file' && ByteFor(file'[p], p - base, pages) {
      if p >= base + at {
        var j := p - base - at;
        assert ByteFor(buf[j], at + j, pages);
      }
    }
  }

  /** Writing elsewhere leaves a bitmap as it is. */
  lemma CopiedStays(file: map<nat, Byte>, file': map<nat, Byte>, base: nat, upto: nat, from: nat, to: nat,
                    pages: set<nat>)
    requires Copied(file, base, upto, pages) && SameOutside(file, file', from, to)
    requires to <= base || base + upto <= from
    ensures Copied(file', base, upto, pages)
  {
  }

  /** Page pfn set or cleared. */
  ghost function Updated(pages: set<nat>, pfn: nat, value: bool): set<nat> {
    if value then pages + {pfn} else pages - {pfn}
  }

  /** A byte and its page's bit after the update. */
  lemma ByteUpdated(b: nat, i: nat, pages: set<nat>, pfn: nat, value: bool)
    requires ByteFor(b, i, pages)
    ensures ByteFor(if i == pfn / CHAR_BIT then WithBit(b, pfn % CHAR_BIT, value) else b, i, Updated(pages, pfn, value))
  {
    var b' := if i == pfn / CHAR_BIT then WithBit(b, pfn % CHAR_BIT, value) else b;
    forall k | 0 <= k < CHAR_BIT ensures Bit(b', k) == (CHAR_BIT * i + k in Updated(pages, pfn, value)) {
      BitOfWithBit(b, pfn % CHAR_BIT, value, k);
    }
  }

  lemma BitSet(buf: seq<Byte>, buf': seq<Byte>, at: nat, pages: set<nat>, pfn: nat, value: bool)
    requires Buffered(buf, at, pages) && at <= pfn / CHAR_BIT < at + |buf| == at + |buf'|
    requires forall j :: 0 <= j < |buf| ==>
      buf'[j] == if at + j == pfn / CHAR_BIT then WithBit(buf[j], pfn % CHAR_BIT, value) else buf[j]
    ensures Buffered(buf', at, Updated(pages, pfn, value))
  {
    forall j | 0 <= j < |buf'| ensures ByteFor(buf'[j], at + j, Updated(pages, pfn, value)) {
      ByteUpdated(buf[j], at + j, pages, pfn, value);
    }
  }

  lemma CopiedUpdated(file: map<nat, Byte>, base: nat, upto: nat, pages: set<nat>, pfn: nat, value: bool)
    requires Copied(file, base, upto, pages) && CHAR_BIT * upto <= pfn
    ensures Copied(file, base, upto, Updated(pages, pfn, value))
  {
  }

  /** The last multiple of n up to a. */
  function Floor(a: nat, n: nat): (o: nat)
    requires 0 < n
    ensures o <= a < o + n
  {
    a - a % n
  }

  /** The start of the buffer that holds page pfn's bit. */
  function BufferStart(pfn: nat): (r: nat)
    ensures r == Floor(pfn / CHAR_BIT, PAGE_SIZE)
  {
    BufferFloor(pfn);
    PAGE_SIZE * (pfn / PFN_BUFBITMAP)
  }

  /** That is the last multiple of the buffer size up to the page's own byte. */
  lemma BufferFloor(pfn: nat)
    ensures PAGE_SIZE * (pfn / PFN_BUFBITMAP) == Floor(pfn / CHAR_BIT, PAGE_SIZE)
  {
    var byte := pfn / CHAR_BIT;
    var q, r := byte / PAGE_SIZE, byte % PAGE_SIZE;
    QuotientOf(byte, PAGE_SIZE);
    BitsOfPages(q, PAGE_SIZE);
    DivOfMultiple(q, PFN_BUFBITMAP, CHAR_BIT * r + pfn % CHAR_BIT);
  }

  lemma NextMultiple(a: nat, n: nat)
    requires 0 < n
    ensures (a + n) % n == a % n
  {
    var q, r := a / n, a % n;
    assert a == q * n + r;
    MulDistributes(q, 1, n);
    DivOfMultiple(q + 1, n, r);
  }

  lemma QuotientsFollow(a: nat, b: nat, n: nat)
    requires 0 < n && a <= b
    ensures a - a % n == b - b % n || a - a % n + n <= b - b % n
    ensures (a + n) % n == a % n
  {
    NextMultiple(a, n);
    QuotientOf(a, n);
    QuotientOf(b, n);
    var q, q' := a / n, b / n;
    if q' < q {
      MulMonotone(q', q, n);
    } else if q < q' {
      MulMonotone(q, q', n);
    }
  }

  /** Buffers follow each other: a later page is in the same buffer or at least a buffer further on,
      and moving on by a buffer's bits moves on by one buffer. */
  lemma BuffersFollow(a: nat, b: nat)
    requires a <= b
    ensures BufferStart(a) == BufferStart(b) || BufferStart(a) + PAGE_SIZE <= BufferStart(b)
    ensures BufferStart(a + PFN_BUFBITMAP) == BufferStart(a) + PAGE_SIZE
  {
    QuotientsFollow(a / CHAR_BIT, b / CHAR_BIT, PAGE_SIZE);
    assert (a + PFN_BUFBITMAP) / CHAR_BIT == a / CHAR_BIT + PAGE_SIZE;
  }

  /** `len_dump_bitmap`. */
  function BitmapBytes(maxMapnr: nat): nat {
    ((maxMapnr + CHAR_BIT - 1) / CHAR_BIT + PAGE_SIZE - 1) / PAGE_SIZE * PAGE_SIZE
  }

  lemma FloorFloor(a: nat, n: nat)
    requires 0 < n
    ensures Floor(Floor(a, n), n) == Floor(a, n)
  {
    var q, r := a / n, a % n;
    assert a == q * n + r;
    DivOfMultiple(q, n, 0);
  }

  lemma NextBuffer(at: nat, end: nat)
    requires Floor(at, PAGE_SIZE) == at < end == Floor(end, PAGE_SIZE)
    ensures at + PAGE_SIZE <= end && Floor(at + PAGE_SIZE, PAGE_SIZE) == at + PAGE_SIZE
  {
    QuotientsFollow(at, end, PAGE_SIZE);
  }

  /** Buffers begin at multiples of their size, and a page's byte is in its buffer. */
  lemma InBuffer(pfn: nat)
    ensures Floor(BufferStart(pfn), PAGE_SIZE) == BufferStart(pfn)
    ensures BufferStart(pfn) <= pfn / CHAR_BIT < BufferStart(pfn) + PAGE_SIZE
  {
    FloorFloor(pfn / CHAR_BIT, PAGE_SIZE);
    QuotientOf(pfn / CHAR_BIT, PAGE_SIZE);
  }

  lemma Cleared(buf: seq<Byte>, buf': seq<Byte>, at: nat, pages: set<nat>)
    requires Buffered(buf, at, pages) && |buf'| == |buf| && forall i :: 0 <= i < |buf'| ==> buf'[i] == 0
    ensures Buffered(buf', at + |buf|, pages)
  {
    forall j | 0 <= j < |buf'| ensures ByteFor(buf'[j], at + |buf| + j, pages) {
      forall k | 0 <= k < CHAR_BIT ensures Bit(0, k) == (CHAR_BIT * (at + |buf| + j) + k in pages) {
        ZeroBits(k);
      }
    }
  }

  lemma BothCopied(file: map<nat, Byte>, file1: map<nat, Byte>, file2: map<nat, Byte>, base: nat, len: nat, at: nat,
                   buf: seq<Byte>, pages: set<nat>)
    requires Copied(file, base, at, pages) && Copied(file, base + len, at, pages) && Buffered(buf, at, pages)
    requires at + |buf| <= len && WrittenAt(file, file1, base + at, buf)
    requires WrittenAt(file1, file2, base + len + at, buf)
    ensures Copied(file2, base, at + |buf|, pages) && Copied(file2, base + len, at + |buf|, pages)
    ensures SameOutside(file, file2, base, base + 2 * len)
  {
    CopiedMore(file, file1, base, at, buf, pages);
    CopiedStays(file, file1, base + len, at, base + at, base + at + |buf|, pages);
    CopiedStays(file1, file2, base, at + |buf|, base + len + at, base + len + at + |buf|, pages);
    CopiedMore(file1, file2, base + len, at, buf, pages);
  }

  /** The bitmaps being written: the file, the buffer, where the first bitmap begins and how long each
      is, and, to state what was set, the pages so far. */
  class BitmapFile {
    const f: DumpFile
    const buf: array<Byte>
    const base: nat
    const len: nat
    ghost var pages: set<nat>

    /** Both bitmaps are in the file up to `at`, and the buffer holds what follows. */
    ghost predicate Synced(at: nat)
      reads this, f, buf
    {
      Copied(f.Image(), base, at, pages) && Copied(f.Image(), base + len, at, pages) && Buffered(buf[..], at, pages)
    }

    constructor (f: DumpFile, base: nat, len: nat)
      ensures this.f == f && this.base == base && this.len == len && pages == {} && Synced(0) && fresh(buf)
    {
      this.f, this.base, this.len, pages := f, base, len, {};
      buf := new Byte[PAGE_SIZE](_ => 0);
      new;
      forall i | 0 <= i < PAGE_SIZE ensures ByteFor(buf[i], i, {}) {
        forall k | 0 <= k < CHAR_BIT ensures !Bit(0, k) {
          ZeroBits(k);
        }
      }
    }

    /** The buffer goes to both bitmaps. */
    method WriteBoth(at: nat)
      requires Synced(at) && at + PAGE_SIZE <= len
      modifies f`runs
      ensures Copied(f.Image(), base, at + PAGE_SIZE, pages) && Copied(f.Image(), base + len, at + PAGE_SIZE, pages)
      ensures SameOutside(old(f.Image()), f.Image(), base, base + 2 * len)
    {
      ghost var f0 := f.Image();
      f.Write(base + at, buf[..]);
      ghost var f1 := f.Image();
      f.Write(base + len + at, buf[..]);
      BothCopied(f0, f1, f.Image(), base, len, at, buf[..], pages);
    }

    /** The buffer goes to both bitmaps and is cleared. */
    method Flush(at: nat)
      requires Synced(at) && at + PAGE_SIZE <= len
      modifies f`runs, buf
      ensures Synced(at + PAGE_SIZE) && SameOutside(old(f.Image()), f.Image(), base, base + 2 * len)
    {
      ghost var b := buf[..];
      WriteBoth(at);
      forall i | 0 <= i < buf.Length {
        buf[i] := 0;
      }
      Cleared(b, buf[..], at, pages);
    }

    /** `set_dump_bitmap`: the buffers between the last page's and this page's go to the file, then
        the bit is set in the buffer. */
    method SetDumpBitmap(last: nat, pfn: nat, value: bool)
      requires last <= pfn && Synced(BufferStart(last)) && BufferStart(pfn) <= len
      modifies f`runs, this`pages, buf
      ensures Synced(BufferStart(pfn)) && pages == Updated(old(pages), pfn, value)
      ensures SameOutside(old(f.Image()), f.Image(), base, base + 2 * len)
    {
      InBuffer(last);
      InBuffer(pfn);
      BuffersFollow(last, pfn);
      FlushTo(BufferStart(last), BufferStart(pfn));
      SetBit(BufferStart(pfn), pfn, value);
    }

    /** The buffers from one offset to the other. */
    method FlushTo(start: nat, end: nat)
      requires Floor(start, PAGE_SIZE) == start <= end == Floor(end, PAGE_SIZE) && end <= len && Synced(start)
      modifies f`runs, buf
      ensures Synced(end) && SameOutside(old(f.Image()), f.Image(), base, base + 2 * len)
    {
      var offset := start;
      while offset < end
        invariant offset <= end && Floor(offset, PAGE_SIZE) == offset
        invariant Synced(offset) && SameOutside(old(f.Image()), f.Image(), base, base + 2 * len)
      {
        NextBuffer(offset, end);
        Flush(offset);
        offset := offset + PAGE_SIZE;
      }
    }

    /** The bit of page pfn in the buffer. */
    method SetBit(at: nat, pfn: nat, value: bool)
      requires Synced(at) && at <= pfn / CHAR_BIT < at + PAGE_SIZE
      modifies this`pages, buf
      ensures Synced(at) && pages == Updated(old(pages), pfn, value)
    {
      ghost var b := buf[..];
      var byte, bit := pfn / CHAR_BIT - at, pfn % CHAR_BIT;
      WithBitBound(buf[byte], bit, value, CHAR_BIT);
      buf[byte] := WithBit(buf[byte], bit, value);
      BitSet(b, buf[..], at, pages, pfn, value);
      CopiedUpdated(f.Image(), base, at, pages, pfn, value);
      CopiedUpdated(f.Image(), base + len, at, pages, pfn, value);
      pages := Updated(pages, pfn, value);
    }
  }

  lemma RoundUpPages(q: nat, p: nat, s: nat)
    requires s < p
    ensures (q * p + s + 1 + p - 1) / p == q + 1
  {
    MulDistributes(q, 1, p);
    DivOfMultiple(q + 1, p, s);
  }

  lemma BitsOfPages(q: nat, p: nat)
    ensures q * (CHAR_BIT * p) == CHAR_BIT * (q * p)
    ensures (q + 1) * p * CHAR_BIT == CHAR_BIT * (q * p) + CHAR_BIT * p
  {
    MulDistributes(q, 1, p);
  }

  /** A bitmap ends with the buffer of the last page. */
  lemma BitmapEnds(maxMapnr: nat)
    requires 0 < maxMapnr
    ensures BitmapBytes(maxMapnr) == BufferStart(maxMapnr - 1) + PAGE_SIZE
  {
    var byte := (maxMapnr - 1) / CHAR_BIT;
    var q, r := byte / PAGE_SIZE, byte % PAGE_SIZE;
    QuotientOf(byte, PAGE_SIZE);
    assert (maxMapnr + CHAR_BIT - 1) / CHAR_BIT == byte + 1;
    RoundUpPages(q, PAGE_SIZE, r);
    MulDistributes(q, 1, PAGE_SIZE);
  }

  /** `pages` are the pages enumerated so far. */
  ghost predicate Enumerated(blocks: seq<PageBlock>, c: Cursor, pages: set<nat>) {
    forall p: nat :: p in pages <==> c.At? && p <= c.pfn && Exists(blocks, p)
  }

  /** Byte i of a bitmap of the blocks: each bit is set exactly if its page is in some block. */
  ghost predicate BitmapByte(b: nat, i: nat, blocks: seq<PageBlock>) {
    forall k: nat :: k < CHAR_BIT ==> (Bit(b, k) <==> Exists(blocks, CHAR_BIT * i + k))
  }

  /** Both bitmaps are complete. */
  ghost predicate BitmapsOk(file: map<nat, Byte>, base: nat, len: nat, blocks: seq<PageBlock>) {
    && (forall p :: base <= p < base + len ==> p in file && BitmapByte(file[p], p - base, blocks))
    && (forall p :: base + len <= p < base + 2 * len ==> p in file && BitmapByte(file[p], p - base - len, blocks))
  }

  lemma BelowMax(blocks: seq<PageBlock>, k: nat, pfn: nat)
    requires BlocksOk(blocks) && On(blocks, k, pfn)
    ensures pfn < blocks[|blocks| - 1].last && BufferStart(pfn) <= BufferStart(blocks[|blocks| - 1].last - 1)
  {
    BuffersFollow(pfn, blocks[|blocks| - 1].last - 1);
  }

  lemma AllCopied(file: map<nat, Byte>, base: nat, len: nat, blocks: seq<PageBlock>, pages: set<nat>)
    requires Copied(file, base, len, pages) && Copied(file, base + len, len, pages)
    requires forall p: nat :: p in pages <==> Exists(blocks, p)
    ensures BitmapsOk(file, base, len, blocks)
  {
    forall p | base <= p < base + len ensures BitmapByte(file[p], p - base, blocks) {
      assert ByteFor(file[p], p - base, pages);
    }
    forall p | base + len <= p < base + 2 * len ensures BitmapByte(file[p], p - base - len, blocks) {
      assert ByteFor(file[p], p - (base + len), pages);
    }
  }

  lemma EnumeratedNext(blocks: seq<PageBlock>, c: Cursor, pages: set<nat>, k: nat, pfn: nat)
    requires On(blocks, k, pfn) && Enumerated(blocks, c, pages) && (c.At? ==> c.pfn < pfn)
    requires forall p: nat :: p < pfn && (c.At? ==> c.pfn < p) ==> !Exists(blocks, p)
    ensures Enumerated(blocks, At(k, pfn), pages + {pfn})
  {
  }

  /** The loop of `write_dump_bitmap`: `more` is whether there are pages left, `last` the last one set. */
  ghost predicate Marking(blocks: seq<PageBlock>, c: Cursor, more: bool, last: nat, count: nat, pages: set<nat>) {
    && BlocksOk(blocks) && Enumerated(blocks, c, pages)
    && (c.At? ==> On(blocks, c.block, c.pfn) && last == c.pfn) && (c.Start? ==> more && last == 0)
    && count == Passed(blocks, c)
    && (!more ==>
      last == blocks[|blocks| - 1].last - 1 && count == Count(blocks, |blocks|)
      && forall p: nat :: last < p ==> !Exists(blocks, p))
  }

  /** One page more. */
  method MarkNext(s: BitmapFile, blocks: seq<PageBlock>, c: Cursor, last: nat, ghost count: nat)
    returns (more: bool, c': Cursor)
    requires Marking(blocks, c, true, last, count, s.pages) && s.Synced(BufferStart(last))
    requires s.len == BufferStart(blocks[|blocks| - 1].last - 1) + PAGE_SIZE
    modifies s.f`runs, s`pages, s.buf
    ensures more ==> c'.At? && Marking(blocks, c', true, c'.pfn, count + 1, s.pages) && s.Synced(BufferStart(c'.pfn))
    ensures more ==> c'.pfn < blocks[|blocks| - 1].last && (c.At? ==> c.pfn < c'.pfn)
    ensures !more ==> Marking(blocks, c, false, last, count, s.pages) && s.Synced(BufferStart(last))
    ensures SameOutside(old(s.f.Image()), s.f.Image(), s.base, s.base + 2 * s.len)
  {
    more, c' := GetNextPage(blocks, c);
    if more {
      BelowMax(blocks, c'.block, c'.pfn);
      EnumeratedNext(blocks, c, s.pages, c'.block, c'.pfn);
      s.SetDumpBitmap(last, c'.pfn, true);
    }
  }

  /** `write_dump_bitmap`. */
  method WriteDumpBitmap(s: BitmapFile, blocks: seq<PageBlock>) returns (numDumpable: nat)
    requires BlocksOk(blocks) && s.Synced(0) && s.pages == {} && s.len == BitmapBytes(blocks[|blocks| - 1].last)
    modifies s.f`runs, s`pages, s.buf
    ensures BitmapsOk(s.f.Image(), s.base, s.len, blocks)
    ensures numDumpable == Count(blocks, |blocks|)
    ensures SameOutside(old(s.f.Image()), s.f.Image(), s.base, s.base + 2 * s.len)
  {
    ghost var max := blocks[|blocks| - 1].last;
    BitmapEnds(max);
    numDumpable := 0;
    var last: nat, more, c := 0, true, Start;
    while more
      invariant Marking(blocks, c, more, last, numDumpable, s.pages) && s.Synced(BufferStart(last))
      invariant SameOutside(old(s.f.Image()), s.f.Image(), s.base, s.base + 2 * s.len)
      decreases more, if c.Start? then max + 1 else max - c.pfn
    {
      var c';
      more, c' := MarkNext(s, blocks, c, last, numDumpable);
      if more {
        c, last, numDumpable := c', c'.pfn, numDumpable + 1;
      }
    }
    SyncLast(s, blocks, c, last, numDumpable);
  }

  /** The bits still in the buffer go to the file. */
  method SyncLast(s: BitmapFile, ghost blocks: seq<PageBlock>, ghost c: Cursor, last: nat, ghost count: nat)
    requires Marking(blocks, c, false, last, count, s.pages) && s.Synced(BufferStart(last))
    requires s.len == BufferStart(blocks[|blocks| - 1].last - 1) + PAGE_SIZE
    modifies s.f`runs, s`pages, s.buf
    ensures BitmapsOk(s.f.Image(), s.base, s.len, blocks)
    ensures SameOutside(old(s.f.Image()), s.f.Image(), s.base, s.base + 2 * s.len)
  {
    BuffersFollow(last, last);
    s.SetDumpBitmap(last, last + PFN_BUFBITMAP, false);
    AllCopied(s.f.Image(), s.base, s.len, blocks, s.pages);
  }
}
