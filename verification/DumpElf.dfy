/** The ELF dump of guest memory: where program headers say a byte is, and where it is written. */
module DumpElf {
  import opened Values
  import opened Arith

  /** A run of guest-physical addresses. */
  datatype GuestPhysBlock = GuestPhysBlock(start: nat, end: nat)

  datatype Filter = NoFilter | Filter(begin: nat, length: nat)

  ghost predicate BlocksOk(blocks: seq<GuestPhysBlock>) {
    forall k :: 0 <= k < |blocks| ==> blocks[k].start <= blocks[k].end
  }

  /** The block has a part to be dumped. */
  predicate InRange(b: GuestPhysBlock, f: Filter) {
    f.NoFilter? || !(b.start >= f.begin + f.length || b.end <= f.begin)
  }

  /** First address of the block to be dumped, and the end of what is dumped of it. */
  function From(b: GuestPhysBlock, f: Filter): nat {
    if f.Filter? && f.begin > b.start then f.begin else b.start
  }

  function To(b: GuestPhysBlock, f: Filter): nat {
    if f.Filter? && f.begin + f.length < b.end then f.begin + f.length else b.end
  }

  function Size(b: GuestPhysBlock, f: Filter): nat
    requires b.start <= b.end
  {
    if InRange(b, f) then To(b, f) - From(b, f) else 0
  }

  /** The address is in the dumped part of the block. */
  predicate DumpedIn(b: GuestPhysBlock, f: Filter, addr: nat) {
    InRange(b, f) && From(b, f) <= addr < To(b, f)
  }

  ghost predicate Dumped(blocks: seq<GuestPhysBlock>, f: Filter, addr: nat) {
    exists k :: 0 <= k < |blocks| && DumpedIn(blocks[k], f, addr)
  }

  /** How much of the dump comes before block k. */
  ghost function Before(blocks: seq<GuestPhysBlock>, f: Filter, k: nat): nat
    requires k <= |blocks| && BlocksOk(blocks)
  {
    if k == 0 then 0 else Before(blocks, f, k - 1) + Size(blocks[k - 1], f)
  }

  /** From position `at` on, the file holds the n bytes of memory from address addr on. */
  ghost predicate Holds(file: seq<Byte>, at: nat, memory: nat -> Byte, addr: nat, n: nat) {
    at + n <= |file| && forall p :: at <= p < at + n ==> file[p] == memory(addr + (p - at))
  }

  /** From position `base` on the file is the dump of the first k blocks: their dumped parts one after
      the other. */
  ghost predicate Image(file: seq<Byte>, base: nat, memory: nat -> Byte, blocks: seq<GuestPhysBlock>, f: Filter, k: nat)
    requires k <= |blocks| && BlocksOk(blocks)
  {
    |file| == base + Before(blocks, f, k) && forall j :: 0 <= j < k ==> HoldsBlock(file, base, memory, blocks, f, j)
  }

  ghost predicate HoldsBlock(file: seq<Byte>, base: nat, memory: nat -> Byte, blocks: seq<GuestPhysBlock>, f: Filter,
                             k: nat)
    requires k < |blocks| && BlocksOk(blocks)
  {
    Holds(file, base + Before(blocks, f, k), memory, From(blocks[k], f), Size(blocks[k], f))
  }

  lemma HoldsMore(file: seq<Byte>, more: seq<Byte>, at: nat, memory: nat -> Byte, addr: nat, n: nat)
    requires Holds(file, at, memory, addr, n)
    ensures Holds(file + more, at, memory, addr, n)
  {
  }

  /** One more block after the first k. */
  lemma ImageMore(file: seq<Byte>, more: seq<Byte>, base: nat, memory: nat -> Byte, blocks: seq<GuestPhysBlock>,
                  f: Filter, k: nat)
    requires k < |blocks| && BlocksOk(blocks) && Image(file, base, memory, blocks, f, k)
    requires |more| == Size(blocks[k], f) && Holds(file + more, |file|, memory, From(blocks[k], f), Size(blocks[k], f))
    ensures Image(file + more, base, memory, blocks, f, k + 1)
  {
    forall j | 0 <= j <= k ensures HoldsBlock(file + more, base, memory, blocks, f, j) {
      if j < k {
        assert HoldsBlock(file, base, memory, blocks, f, j);
        HoldsMore(file, more, base + Before(blocks, f, j), memory, From(blocks[j], f), Size(blocks[j], f));
      }
    }
  }

  lemma {:induction false} ImageSkips(file: seq<Byte>, base: nat, memory: nat -> Byte, blocks: seq<GuestPhysBlock>,
                                      f: Filter, k: nat, n: nat)
    requires k <= n <= |blocks| && BlocksOk(blocks) && Image(file, base, memory, blocks, f, k)
    requires forall j :: k <= j < n ==> !InRange(blocks[j], f)
    ensures Image(file, base, memory, blocks, f, n)
    decreases n - k
  {
    if k < n {
      assert file + [] == file;
      ImageMore(file, [], base, memory, blocks, f, k);
      ImageSkips(file, base, memory, blocks, f, k + 1, n);
    }
  }

  /** Part of what the dump of a block holds. */
  lemma HoldsPart(file: seq<Byte>, at: nat, memory: nat -> Byte, addr: nat, n: nat, i: nat, m: nat)
    requires Holds(file, at, memory, addr, n) && i + m <= n
    ensures Holds(file, at + i, memory, addr + i, m)
  {
    forall p | at + i <= p < at + i + m ensures file[p] == memory(addr + i + (p - (at + i))) {
      assert addr + (p - at) == addr + i + (p - (at + i));
    }
  }

  /** What `get_offset_range` reports. */
  datatype Range = NotStored | Stored(offset: nat, filesz: nat)

  /** Where an address is in the dump: so far into the part of its block. */
  ghost predicate Located(blocks: seq<GuestPhysBlock>, f: Filter, addr: nat, n: nat, at: nat)
    requires BlocksOk(blocks)
  {
    exists k :: 0 <= k < |blocks| && LocatedIn(blocks, f, k, addr, n, at)
  }

  ghost predicate LocatedIn(blocks: seq<GuestPhysBlock>, f: Filter, k: nat, addr: nat, n: nat, at: nat)
    requires k < |blocks| && BlocksOk(blocks)
  {
    DumpedIn(blocks[k], f, addr) && addr + n <= To(blocks[k], f)
      && at == Before(blocks, f, k) + (addr - From(blocks[k], f))
  }

  /** In the file of all blocks, a located run of addresses holds the memory at those addresses. */
  lemma LocatedHolds(file: seq<Byte>, base: nat, memory: nat -> Byte, blocks: seq<GuestPhysBlock>, f: Filter,
                     addr: nat, n: nat, at: nat)
    requires BlocksOk(blocks) && Image(file, base, memory, blocks, f, |blocks|) && Located(blocks, f, addr, n, at)
    ensures Holds(file, base + at, memory, addr, n)
  {
    var k :| 0 <= k < |blocks| && LocatedIn(blocks, f, k, addr, n, at);
    assert HoldsBlock(file, base, memory, blocks, f, k);
    HoldsPart(file, base + Before(blocks, f, k), memory, From(blocks[k], f), Size(blocks[k], f),
      addr - From(blocks[k], f), n);
  }

  /** What `get_offset_range` promises: a dumped address is located in the file, with as many of the
      following bytes as both the mapping and the dumped part of the block have; any other address
      is not stored. */
  ghost predicate RangeOk(blocks: seq<GuestPhysBlock>, f: Filter, memoryOffset: nat, addr: nat, length: nat, r: Range)
    requires BlocksOk(blocks)
  {
    match r
    case NotStored => !Dumped(blocks, f, addr)
    case Stored(offset, filesz) =>
      && memoryOffset <= offset && Located(blocks, f, addr, filesz, offset - memoryOffset)
      && filesz <= length
      && (filesz < length ==>
        exists k :: 0 <= k < |blocks| && DumpedIn(blocks[k], f, addr) && addr + filesz == To(blocks[k], f))
  }

  /** The program header of a mapping tells the truth about the finished file: the bytes it points to
      are the memory the mapping describes. */
  lemma HeaderTrue(file: seq<Byte>, memory: nat -> Byte, blocks: seq<GuestPhysBlock>, f: Filter, memoryOffset: nat,
                   addr: nat, length: nat, r: Range)
    requires BlocksOk(blocks) && Image(file, memoryOffset, memory, blocks, f, |blocks|)
    requires RangeOk(blocks, f, memoryOffset, addr, length, r)
    ensures r.Stored? <==> Dumped(blocks, f, addr)
    ensures r.Stored? ==> Holds(file, r.offset, memory, addr, r.filesz)
  {
    if r.Stored? {
      LocatedHolds(file, memoryOffset, memory, blocks, f, addr, r.filesz, r.offset - memoryOffset);
      var k :| 0 <= k < |blocks| && LocatedIn(blocks, f, k, addr, r.filesz, r.offset - memoryOffset);
      assert DumpedIn(blocks[k], f, addr);
    }
  }

  lemma HoldsJoin(file: seq<Byte>, at: nat, memory: nat -> Byte, addr: nat, n: nat, m: nat)
    requires Holds(file, at, memory, addr, n) && Holds(file, at + n, memory, addr + n, m)
    ensures Holds(file, at, memory, addr, n + m)
  {
    forall p | at <= p < at + n + m ensures file[p] == memory(addr + (p - at)) {
      if p >= at + n {
        assert addr + n + (p - (at + n)) == addr + (p - at);
      }
    }
  }

  datatype MemoryMapping = MemoryMapping(addr: nat, length: nat)

  // ---- The front of the file ----

  datatype ElfClass = Elf32 | Elf64 {
    /** sizeof(Elf32_Ehdr) or sizeof(Elf64_Ehdr), and so on. */
    function Ehdr(): nat { if Elf32? then 52 else 64 }
    function Phdr(): nat { if Elf32? then 32 else 56 }
    function Shdr(): nat { if Elf32? then 40 else 64 }
  }

  const UINT16_MAX: nat := 0xffff
  const UINT32_MAX: nat := 0xffff_ffff

  /** The number of program headers in the file header that stands for: see the section header. */
  const PN_XNUM: nat := 0xffff

  /** The number of program headers does not fit its field. */
  predicate HaveSection(num: nat) { num >= UINT16_MAX - 2 }

  /** How many program headers there is room for, the note's included, in a dump of `num` mappings:
      `phdr_num`, or `sh_info` with a section header. */
  function MaxIndex(num: nat): nat {
    if !HaveSection(num) || num <= UINT32_MAX - 1 then 1 + num else UINT32_MAX
  }

  /** The place of program header i. */
  function HeaderPos(c: ElfClass, i: nat): nat {
    match c
    case Elf32 => 52 + 32 * i
    case Elf64 => 64 + 56 * i
  }

  /** `memory_offset`: where the memory begins. */
  function MemoryOffset(c: ElfClass, num: nat, noteSize: nat): nat {
    var section := match c case Elf32 => 40 case Elf64 => 64;
    HeaderPos(c, MaxIndex(num)) + (if HaveSection(num) then section else 0) + noteSize
  }

  /** The bytes of the headers and notes, which this model does not look into. A program header is
      made from its mapping and the range found for it. */
  datatype Coder = Coder(ehdr: seq<Byte>, note: seq<Byte>, load: (MemoryMapping, Range) -> seq<Byte>,
                         section: seq<Byte>, notes: seq<Byte>)

  ghost predicate CoderOk(c: ElfClass, code: Coder) {
    && |code.ehdr| == c.Ehdr() && |code.note| == c.Phdr() && |code.section| == c.Shdr()
    && forall m, r :: |code.load(m, r)| == c.Phdr()
  }

  /** The program headers stand in the file, after the note's. */
  ghost predicate LoadsAt(file: seq<Byte>, c: ElfClass, code: Coder, mappings: seq<MemoryMapping>,
                          headers: seq<Range>) {
    |headers| <= |mappings| &&
    forall i :: 0 <= i < |headers| ==> LoadAt(file, c, code, mappings[i], headers[i], i)
  }

  ghost predicate LoadAt(file: seq<Byte>, c: ElfClass, code: Coder, m: MemoryMapping, r: Range, i: nat) {
    Piece(file, HeaderPos(c, 1 + i), code.load(m, r))
  }

  lemma LoadsMore(file: seq<Byte>, more: seq<Byte>, c: ElfClass, code: Coder, mappings: seq<MemoryMapping>,
                  headers: seq<Range>)
    requires LoadsAt(file, c, code, mappings, headers)
    ensures LoadsAt(file + more, c, code, mappings, headers)
  {
    forall i | 0 <= i < |headers| ensures LoadAt(file + more, c, code, mappings[i], headers[i], i) {
      assert LoadAt(file, c, code, mappings[i], headers[i], i);
      PieceMore(file, more, HeaderPos(c, 1 + i), code.load(mappings[i], headers[i]));
    }
  }

  lemma OneMoreLoad(file: seq<Byte>, c: ElfClass, code: Coder, mappings: seq<MemoryMapping>, headers: seq<Range>,
                    r: Range)
    requires LoadsAt(file, c, code, mappings, headers) && CoderOk(c, code)
    requires |headers| < |mappings| && |file| == HeaderPos(c, 1 + |headers|)
    ensures LoadsAt(file + code.load(mappings[|headers|], r), c, code, mappings, headers + [r])
  {
    var n := |headers|;
    var more := code.load(mappings[n], r);
    LoadsMore(file, more, c, code, mappings, headers);
    forall i | 0 <= i <= n ensures LoadAt(file + more, c, code, mappings[i], (headers + [r])[i], i) {
      assert i < n ==> LoadAt(file + more, c, code, mappings[i], headers[i], i);
    }
  }

  /** An ELF dump being made: the options, the file so far, and the cursor. */
  class DumpState {
    const memory: nat -> Byte
    const blocks: seq<GuestPhysBlock>
    const filter: Filter
    const elfClass: ElfClass
    const mappings: seq<MemoryMapping>
    const code: Coder
    /** The number of program headers in the file header, and in the section header if there is one. */
    const phdrNum: nat
    const haveSection: bool
    const shInfo: nat
    const memoryOffset: nat
    var start: nat
    var nextBlock: nat
    var out: seq<Byte>

    /** The part of `dump_init` that sets the sizes. */
    constructor (memory: nat -> Byte, blocks: seq<GuestPhysBlock>, filter: Filter,
                 elfClass: ElfClass, mappings: seq<MemoryMapping>, code: Coder)
      ensures this.memory == memory && this.blocks == blocks && this.filter == filter
      ensures this.elfClass == elfClass && this.mappings == mappings && this.code == code
      ensures SizesOk() && out == []
    {
      this.memory, this.blocks, this.filter := memory, blocks, filter;
      this.elfClass, this.mappings, this.code := elfClass, mappings, code;
      var num, noteSize := |mappings|, |code.notes|;
      var headers := 1;
      if num < UINT16_MAX - 2 {
        headers := headers + num;
        phdrNum, haveSection, shInfo := headers, false, 0;
        memoryOffset := elfClass.Ehdr() + elfClass.Phdr() * headers + noteSize;
      } else {
        headers := if num <= UINT32_MAX - 1 then headers + num else UINT32_MAX;
        phdrNum, haveSection, shInfo := PN_XNUM, true, headers;
        memoryOffset := elfClass.Ehdr() + elfClass.Phdr() * headers + elfClass.Shdr() + noteSize;
      }
      start, nextBlock, out := 0, 0, [];
    }

    /** The sizes are right for the mappings and notes, and the number in the file header fits it. */
    predicate SizesOk() {
      && (haveSection <==> HaveSection(|mappings|))
      && (if haveSection then phdrNum == PN_XNUM && shInfo == MaxIndex(|mappings|)
          else phdrNum == 1 + |mappings| == MaxIndex(|mappings|) < PN_XNUM)
      && memoryOffset == MemoryOffset(elfClass, |mappings|, |code.notes|)
    }

    /** `get_offset_range`. */
    method GetOffsetRange(addr: nat, length: nat) returns (r: Range)
      requires BlocksOk(blocks)
      ensures RangeOk(blocks, filter, memoryOffset, addr, length, r)
    {
      if filter.Filter? && (addr < filter.begin || addr >= filter.begin + filter.length) {
        return NotStored;
      }
      var offset := memoryOffset;
      for k := 0 to |blocks|
        invariant offset == memoryOffset + Before(blocks, filter, k)
        invariant forall j :: 0 <= j < k ==> !DumpedIn(blocks[j], filter, addr)
      {
        var b := blocks[k];
        if filter.Filter? && (b.start >= filter.begin + filter.length || b.end <= filter.begin) {
          continue;
        }
        var from := if filter.NoFilter? || filter.begin <= b.start then b.start else filter.begin;
        var size := b.end - from;
        if filter.Filter? && filter.begin + filter.length < b.end {
          size := size - (b.end - (filter.begin + filter.length));
        }
        if from <= addr < from + size {
          var filesz := if addr + length <= from + size then length else size - (addr - from);
          assert LocatedIn(blocks, filter, k, addr, filesz, addr - from + offset - memoryOffset);
          return Stored(addr - from + offset, filesz);
        }
        offset := offset + size;
      }
      r := NotStored;
    }

    /** `write_elf_loads`: a program header for each mapping, as many as `maxIndex` leaves room for. */
    method WriteElfLoads(maxIndex: nat) returns (headers: seq<Range>)
      requires BlocksOk(blocks) && CoderOk(elfClass, code) && |out| == HeaderPos(elfClass, 1)
      modifies this`out
      ensures old(out) <= out && |out| == HeaderPos(elfClass, 1 + |headers|)
      ensures LoadsAt(out, elfClass, code, mappings, headers)
      ensures forall i :: 0 <= i < |headers| ==>
        RangeOk(blocks, filter, memoryOffset, mappings[i].addr, mappings[i].length, headers[i])
      ensures maxIndex == 1 + |mappings| || 1 < maxIndex <= |mappings| ==> 1 + |headers| == maxIndex
    {
      headers := [];
      var index := 1;
      for i := 0 to |mappings|
        invariant |headers| == i && index == 1 + i && (i > 0 ==> index < maxIndex)
        invariant old(out) <= out && |out| == HeaderPos(elfClass, 1 + i)
        invariant LoadsAt(out, elfClass, code, mappings, headers)
        invariant forall j :: 0 <= j < i ==>
          RangeOk(blocks, filter, memoryOffset, mappings[j].addr, mappings[j].length, headers[j])
      {
        var r := GetOffsetRange(mappings[i].addr, mappings[i].length);
        OneMoreLoad(out, elfClass, code, mappings, headers, r);
        out := out + code.load(mappings[i], r);
        headers := headers + [r];
        index := index + 1;
        if index >= maxIndex {
          break;
        }
      }
    }

    /** `dump_begin`: headers and notes, which end exactly where `memory_offset` says. */
    method DumpBegin() returns (headers: seq<Range>)
      requires BlocksOk(blocks) && CoderOk(elfClass, code) && out == []
      requires SizesOk()
      modifies this`out
      ensures |out| == memoryOffset && 1 + |headers| == MaxIndex(|mappings|)
      ensures LoadsAt(out, elfClass, code, mappings, headers)
      ensures Piece(out, memoryOffset - |code.notes|, code.notes)
      ensures forall i :: 0 <= i < |headers| ==>
        RangeOk(blocks, filter, memoryOffset, mappings[i].addr, mappings[i].length, headers[i])
    {
      out := out + code.ehdr;
      out := out + code.note;
      headers := WriteElfLoads(if haveSection then shInfo else phdrNum);
      if haveSection {
        LoadsMore(out, code.section, elfClass, code, mappings, headers);
        out := out + code.section;
      }
      LoadsMore(out, code.notes, elfClass, code, mappings, headers);
      out := out + code.notes;
    }

    /** One write of memory to the file. */
    method WriteData(addr: nat, n: nat)
      modifies this`out
      ensures old(out) <= out && |out| == |old(out)| + n && Holds(out, |old(out)|, memory, addr, n)
    {
      var m := memory;
      out := out + seq(n, i requires 0 <= i < n => m(addr + i));
    }

    /** `write_memory`: page by page, then the rest. */
    method WriteMemory(b: GuestPhysBlock, start: nat, size: nat)
      modifies this`out
      ensures old(out) <= out && |out| == |old(out)| + size && Holds(out, |old(out)|, memory, b.start + start, size)
    {
      var addr := b.start + start;
      var done := 0;
      QuotientOf(size, PAGE_SIZE);
      for i := 0 to size / PAGE_SIZE
        invariant done == i * PAGE_SIZE
        invariant old(out) <= out && |out| == |old(out)| + done && Holds(out, |old(out)|, memory, addr, done)
      {
        AppendPage(|old(out)|, addr, done, PAGE_SIZE);
        MulDistributes(i, 1, PAGE_SIZE);
        done := done + PAGE_SIZE;
      }
      if size % PAGE_SIZE != 0 {
        AppendPage(|old(out)|, addr, done, size % PAGE_SIZE);
      }
    }

    method AppendPage(ghost base: nat, addr: nat, done: nat, n: nat)
      requires |out| == base + done && Holds(out, base, memory, addr, done)
      modifies this`out
      ensures old(out) <= out && |out| == base + done + n && Holds(out, base, memory, addr, done + n)
    {
      ghost var before := out;
      WriteData(addr + done, n);
      assert out == before + out[|before|..];
      HoldsMore(before, out[|before|..], base, memory, addr, done);
      HoldsJoin(out, base, memory, addr, done, n);
    }

    /** The next block to write has a part to be dumped, which begins at `start`. */
    ghost predicate Placed()
      reads this
    {
      && BlocksOk(blocks) && nextBlock < |blocks| && InRange(blocks[nextBlock], filter)
      && start == From(blocks[nextBlock], filter) - blocks[nextBlock].start
    }

    /** And the blocks before it are written. */
    ghost predicate Ready()
      reads this
    {
      Placed() && Image(out, memoryOffset, memory, blocks, filter, nextBlock)
    }

    /** `get_start_block`, and the check of its result in `dump_init`: the first block to be dumped;
        fails exactly if the filter leaves nothing. */
    method GetStartBlock() returns (ok: bool)
      requires BlocksOk(blocks) && (filter.NoFilter? ==> blocks != [])
      modifies this`start, this`nextBlock
      ensures ok <==> exists k :: 0 <= k < |blocks| && InRange(blocks[k], filter)
      ensures ok ==> Placed() && forall j :: 0 <= j < nextBlock ==> !InRange(blocks[j], filter)
    {
      if filter.NoFilter? {
        nextBlock, start := 0, 0;
        assert InRange(blocks[0], filter);
        return true;
      }
      for k := 0 to |blocks|
        invariant forall j :: 0 <= j < k ==> !InRange(blocks[j], filter)
      {
        if blocks[k].start >= filter.begin + filter.length || blocks[k].end <= filter.begin {
          continue;
        }
        nextBlock := k;
        start := if filter.begin > blocks[k].start then filter.begin - blocks[k].start else 0;
        return true;
      }
      ok := false;
    }

    /** `get_next_block`, after the next block was written: on to the next one that has a part to be
        dumped; none is left exactly if everything is written. */
    method GetNextBlock() returns (more: bool)
      requires BlocksOk(blocks) && nextBlock < |blocks|
      requires Image(out, memoryOffset, memory, blocks, filter, nextBlock + 1)
      modifies this`start, this`nextBlock
      ensures more ==> Ready() && old(nextBlock) < nextBlock
      ensures !more ==> Image(out, memoryOffset, memory, blocks, filter, |blocks|)
    {
      ghost var first := nextBlock + 1;
      var k := nextBlock + 1;
      while k < |blocks|
        invariant first <= k <= |blocks|
        invariant forall j :: first <= j < k ==> !InRange(blocks[j], filter)
      {
        start, nextBlock := 0, k;
        if filter.Filter? {
          if blocks[k].start >= filter.begin + filter.length || blocks[k].end <= filter.begin {
            k := k + 1;
            continue;
          }
          if filter.begin > blocks[k].start {
            start := filter.begin - blocks[k].start;
          }
        }
        ImageSkips(out, memoryOffset, memory, blocks, filter, first, k);
        return true;
      }
      ImageSkips(out, memoryOffset, memory, blocks, filter, first, k);
      more := false;
    }

    /** The dumped part of the next block. */
    method WriteBlock()
      requires Ready()
      modifies this`out
      ensures old(out) <= out && Image(out, memoryOffset, memory, blocks, filter, nextBlock + 1)
    {
      var b := blocks[nextBlock];
      var size := b.end - b.start;
      if filter.Filter? {
        size := size - start;
        if filter.begin + filter.length < b.end {
          size := size - (b.end - (filter.begin + filter.length));
        }
      }
      ghost var before := out;
      WriteMemory(b, start, size);
      assert out == before + out[|before|..];
      ImageMore(before, out[|before|..], memoryOffset, memory, blocks, filter, nextBlock);
    }

    /** `dump_iterate`: the dumped parts of all blocks, one after the other. */
    method DumpIterate()
      requires Ready()
      modifies this`start, this`nextBlock, this`out
      ensures old(out) <= out && Image(out, memoryOffset, memory, blocks, filter, |blocks|)
    {
      var more := true;
      while more
        invariant old(out) <= out
        invariant if more then Ready() else Image(out, memoryOffset, memory, blocks, filter, |blocks|)
        decreases more, |blocks| - nextBlock
      {
        WriteBlock();
        more := GetNextBlock();
      }
    }
  }

  /** A header is in its place in the file and points at the bytes of its mapping, or the mapping is not
      in the dump. */
  ghost predicate HeaderOk(s: DumpState, file: seq<Byte>, m: MemoryMapping, r: Range, i: nat)
    requires BlocksOk(s.blocks)
  {
    && LoadAt(file, s.elfClass, s.code, m, r, i)
    && RangeOk(s.blocks, s.filter, s.memoryOffset, m.addr, m.length, r)
    && (r.Stored? ==> Holds(file, r.offset, s.memory, m.addr, r.filesz))
  }

  /** `create_vmcore` after `dump_init`: the file is headers and notes, as long as `memory_offset` says,
      then the dumped memory; every header in it tells the truth about it. */
  method Dump(s: DumpState) returns (ok: bool, headers: seq<Range>)
    requires BlocksOk(s.blocks) && (s.filter.NoFilter? ==> s.blocks != []) && CoderOk(s.elfClass, s.code)
    requires s.SizesOk() && s.out == []
    modifies s
    ensures ok <==> exists k :: 0 <= k < |s.blocks| && InRange(s.blocks[k], s.filter)
    ensures ok ==> Image(s.out, s.memoryOffset, s.memory, s.blocks, s.filter, |s.blocks|)
    ensures ok ==> 1 + |headers| == MaxIndex(|s.mappings|) && |headers| <= |s.mappings|
    ensures ok && |s.mappings| < UINT32_MAX ==> |headers| == |s.mappings|
    ensures ok ==> forall i :: 0 <= i < |headers| ==> HeaderOk(s, s.out, s.mappings[i], headers[i], i)
    ensures ok ==> Piece(s.out, s.memoryOffset - |s.code.notes|, s.code.notes)
  {
    headers := [];
    ok := s.GetStartBlock();
    if !ok {
      return;
    }
    headers := s.DumpBegin();
    ghost var front := s.out;
    ImageSkips(s.out, s.memoryOffset, s.memory, s.blocks, s.filter, 0, s.nextBlock);
    s.DumpIterate();
    FrontStays(s, front, headers);
    forall i | 0 <= i < |headers| ensures HeaderOk(s, s.out, s.mappings[i], headers[i], i) {
      assert LoadAt(s.out, s.elfClass, s.code, s.mappings[i], headers[i], i);
      HeaderTrue(s.out, s.memory, s.blocks, s.filter, s.memoryOffset,
        s.mappings[i].addr, s.mappings[i].length, headers[i]);
    }
  }

  lemma FrontStays(s: DumpState, front: seq<Byte>, headers: seq<Range>)
    requires front <= s.out && LoadsAt(front, s.elfClass, s.code, s.mappings, headers)
    requires |s.code.notes| <= s.memoryOffset && Piece(front, s.memoryOffset - |s.code.notes|, s.code.notes)
    ensures LoadsAt(s.out, s.elfClass, s.code, s.mappings, headers)
    ensures Piece(s.out, s.memoryOffset - |s.code.notes|, s.code.notes)
  {
    var more := s.out[|front|..];
    assert s.out == front + more;
    LoadsMore(front, more, s.elfClass, s.code, s.mappings, headers);
    PieceMore(front, more, s.memoryOffset - |s.code.notes|, s.code.notes);
  }
}
