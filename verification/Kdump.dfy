/** The whole kdump-compressed file: headers, both bitmaps, page descriptors and page data. */
module Kdump {
  import opened Values
  import opened Arith
  import opened FileImage
  import opened Flattened
  import opened DumpBitmap
  import opened DumpPages

  const DISKDUMP_HEADER_BLOCKS: nat := 1

  /** The bytes of the main header, the sub header and the notes, which this model does not look into.
      The main header fits its block. */
  datatype Front = Front(header: seq<Byte>, subHeader: seq<Byte>, notes: seq<Byte>)

  function RoundedUp(n: nat, d: nat): nat
    requires 0 < d
  {
    (n + d - 1) / d
  }

  /** Blocks taken by sub header and notes. */
  function SubBlocks(front: Front): nat {
    RoundedUp(|front.subHeader| + |front.notes|, PAGE_SIZE)
  }

  /** `offset_dump_bitmap`. */
  function OffsetDumpBitmap(front: Front): nat {
    (DISKDUMP_HEADER_BLOCKS + SubBlocks(front)) * PAGE_SIZE
  }

  /** `offset_page`. */
  function OffsetPage(front: Front, len: nat): nat {
    (DISKDUMP_HEADER_BLOCKS + SubBlocks(front) + RoundedUp(len, PAGE_SIZE) * 2) * PAGE_SIZE
  }

  lemma RoundedUpCovers(n: nat, d: nat)
    requires 0 < d
    ensures n <= RoundedUp(n, d) * d
  {
    var q, r := (n + d - 1) / d, (n + d - 1) % d;
    assert n + d - 1 == q * d + r;
  }

  /** The front ends where the bitmaps begin, at the latest. */
  lemma FrontFits(front: Front)
    requires |front.header| <= PAGE_SIZE
    ensures PAGE_SIZE + |front.subHeader| + |front.notes| <= OffsetDumpBitmap(front)
  {
    RoundedUpCovers(|front.subHeader| + |front.notes|, PAGE_SIZE);
    MulDistributes(1, SubBlocks(front), PAGE_SIZE);
  }

  lemma RoundedUpExact(q: nat, d: nat)
    requires 0 < d
    ensures RoundedUp(q * d, d) == q
  {
    DivOfMultiple(q, d, d - 1);
  }

  /** The page section begins right after the two bitmaps. */
  lemma PagesAfterBitmaps(front: Front, maxMapnr: nat)
    ensures OffsetPage(front, BitmapBytes(maxMapnr)) == OffsetDumpBitmap(front) + 2 * BitmapBytes(maxMapnr)
  {
    var q := ((maxMapnr + CHAR_BIT - 1) / CHAR_BIT + PAGE_SIZE - 1) / PAGE_SIZE;
    RoundedUpExact(q, PAGE_SIZE);
    MulDistributes(DISKDUMP_HEADER_BLOCKS + SubBlocks(front), q * 2, PAGE_SIZE);
    assert q * 2 * PAGE_SIZE == 2 * (q * PAGE_SIZE);
  }

  /** The front is in its place. */
  ghost predicate FrontAt(file: map<nat, Byte>, front: Front) {
    && Holds(file, 0, front.header) && Holds(file, PAGE_SIZE, front.subHeader)
    && Holds(file, PAGE_SIZE + |front.subHeader|, front.notes)
  }

  /** `write_dump_header`. */
  method WriteDumpHeader(f: DumpFile, front: Front)
    requires |front.header| <= PAGE_SIZE
    modifies f`runs
    ensures FrontAt(f.Image(), front)
  {
    f.Write(0, front.header);
    ghost var f1 := f.Image();
    f.Write(DISKDUMP_HEADER_BLOCKS * PAGE_SIZE, front.subHeader);
    HoldsStays(f1, f.Image(), 0, front.header, PAGE_SIZE, PAGE_SIZE + |front.subHeader|);
    ghost var f2 := f.Image();
    var at := PAGE_SIZE + |front.subHeader|;
    f.Write(at, front.notes);
    HoldsStays(f2, f.Image(), 0, front.header, at, at + |front.notes|);
    HoldsStays(f2, f.Image(), PAGE_SIZE, front.subHeader, at, at + |front.notes|);
  }

  lemma FrontStays(file: map<nat, Byte>, file': map<nat, Byte>, front: Front, to: nat)
    requires FrontAt(file, front) && SameBefore(file, file', to) && |front.header| <= PAGE_SIZE
    requires PAGE_SIZE + |front.subHeader| + |front.notes| <= to
    ensures FrontAt(file', front)
  {
  }

  lemma BitmapsStay(file: map<nat, Byte>, file': map<nat, Byte>, base: nat, len: nat, blocks: seq<PageBlock>)
    requires BitmapsOk(file, base, len, blocks) && SameBefore(file, file', base + 2 * len)
    ensures BitmapsOk(file', base, len, blocks)
  {
  }

  /** The finished file: everything in its place, all at once. */
  ghost predicate KdumpOk(file: map<nat, Byte>, front: Front, blocks: seq<PageBlock>, content: nat -> seq<Byte>,
                          code: Coding)
    requires BlocksOk(blocks) && forall p :: |content(p)| == PAGE_SIZE
  {
    var len := BitmapBytes(blocks[|blocks| - 1].last);
    var pages := OffsetPage(front, len);
    && FrontAt(file, front) && BitmapsOk(file, OffsetDumpBitmap(front), len, blocks)
    && PagesOk(code, file, pages, blocks, content, pages + DESCRIPTOR_SIZE * Count(blocks, |blocks|))
  }

  /** `create_kdump_vmcore`: the stream `out` is in the flattened format. The file that its runs make holds the
      front, both bitmaps with a bit set exactly for each page of a block, and for each such page a
      descriptor that names its stored bytes; rearranging the stream gives that file. */
  method CreateKdumpVmcore(front: Front, blocks: seq<PageBlock>, content: nat -> seq<Byte>, code: Coding)
    returns (f: DumpFile, out: Bytes)
    requires BlocksOk(blocks) && CodingOk(code) && (forall p :: |content(p)| == PAGE_SIZE)
    requires |front.header| <= PAGE_SIZE
    ensures KdumpOk(f.Image(), front, blocks, content, code) && out == FlatFile(f.runs)
    ensures (forall i :: 0 <= i < |f.runs| ==> Fits(f.runs[i])) ==> Unflatten(out) == Some(f.Image())
  {
    f := new DumpFile();
    CreateFile(f, front, blocks, content, code);
    out := FlatFile(f.runs);
    if forall i :: 0 <= i < |f.runs| ==> Fits(f.runs[i]) {
      FlatRoundTrip(f.runs);
    }
  }

  /** Headers, bitmaps and pages. */
  method CreateFile(f: DumpFile, front: Front, blocks: seq<PageBlock>, content: nat -> seq<Byte>, code: Coding)
    requires BlocksOk(blocks) && CodingOk(code) && (forall p :: |content(p)| == PAGE_SIZE)
    requires |front.header| <= PAGE_SIZE
    modifies f`runs
    ensures KdumpOk(f.Image(), front, blocks, content, code)
  {
    var maxMapnr := blocks[|blocks| - 1].last;
    var len := BitmapBytes(maxMapnr);
    var base, pages := OffsetDumpBitmap(front), OffsetPage(front, len);
    FrontFits(front);
    PagesAfterBitmaps(front, maxMapnr);
    WriteDumpHeader(f, front);
    ghost var f1 := f.Image();
    var numDumpable := CreateBitmaps(f, base, len, blocks);
    FrontStays(f1, f.Image(), front, base);
    ghost var f2 := f.Image();
    WriteDumpPages(f, blocks, content, pages, numDumpable, code);
    FrontStays(f2, f.Image(), front, pages);
    BitmapsStay(f2, f.Image(), base, len, blocks);
  }

  method CreateBitmaps(f: DumpFile, base: nat, len: nat, blocks: seq<PageBlock>) returns (numDumpable: nat)
    requires BlocksOk(blocks) && len == BitmapBytes(blocks[|blocks| - 1].last)
    modifies f`runs
    ensures BitmapsOk(f.Image(), base, len, blocks) && numDumpable == Count(blocks, |blocks|)
    ensures SameBefore(old(f.Image()), f.Image(), base)
  {
    var s := new BitmapFile(f, base, len);
    assert BufferStart(0) == 0;
    numDumpable := WriteDumpBitmap(s, blocks);
  }
}
