/** Bit facts about masks of the form "ones, then zeros". A mask is within another when it keeps
    no further bits: m & m' == m. They are stated on plain expressions, one idea each. */
module Masks {

  /** A guest virtual address, with the machine's wrap-around and bit operations. */
  type Word = bv64

  lemma SizeMask(size: Word)
    requires size != 0 && size & (size - 1) == 0 && 0x1000 < size
    ensures var m := !(size - 1);
      (m << 1) & m == m << 1 && m & 0xfff == 0
  {
  }

  /** One turn of the widening loop. */
  lemma ShiftStep(m: Word, mask0: Word, x: Word)
    requires (m << 1) & m == m << 1 && m & mask0 == m && x & m != 0
    ensures ((m << 1) << 1) & (m << 1) == (m << 1) << 1
    ensures (m << 1) & mask0 == m << 1
    ensures m << 1 < m
  {
    ShiftShrinks(m);
    WithinTrans(m << 1, m, mask0);
  }

  lemma ShiftShrinks(m: Word)
    requires (m << 1) & m == m << 1
    ensures ((m << 1) << 1) & (m << 1) == (m << 1) << 1
    ensures m != 0 ==> m << 1 < m
  {
  }

  lemma AndKeepsPrefix(a: Word, b: Word)
    requires (a << 1) & a == a << 1 && (b << 1) & b == b << 1
    ensures ((a & b) << 1) & (a & b) == (a & b) << 1
  {
  }

  lemma WithinTrans(a: Word, b: Word, c: Word)
    requires a & b == a && b & c == b
    ensures a & c == a
  {
  }

  lemma WithinAnd(m: Word, a: Word, b: Word)
    requires m & (a & b) == m
    ensures m & a == m && m & b == m
  {
  }

  lemma AndRegroup(a: Word, m: Word, k: Word)
    ensures (a & m) & k == a & (k & m)
  {
  }

  /** Agreement under a mask is agreement under every mask within it. */
  lemma CoveredAddress(a: Word, b: Word, m: Word, mask: Word)
    requires a & m == b & m && mask & m == mask
    ensures a & mask == b & mask
  {
    AndRegroup(a, m, mask);
    AndRegroup(b, m, mask);
  }

  /** A covered page stays covered when the area widens. */
  lemma Narrowed(v: Word, pageMask: Word, addr: Word, mask0: Word, addr': Word, mask: Word)
    requires mask0 & pageMask == mask0 && v & mask0 == addr && mask & mask0 == mask && addr' == addr & mask
    ensures mask & pageMask == mask && v & mask == addr'
  {
  }

  lemma XorTest(a: Word, b: Word, mask: Word)
    requires (a ^ b) & mask == 0
    ensures a & mask == b & mask
  {
    XorDistributes(a, b, mask);
    XorZero(a & mask, b & mask);
  }

  lemma XorDistributes(a: Word, b: Word, mask: Word)
    ensures (a ^ b) & mask == (a & mask) ^ (b & mask)
  {
  }

  lemma XorZero(x: Word, y: Word)
    requires x ^ y == 0
    ensures x == y
  {
  }

  lemma LowBitsClear(vaddr: Word, mask: Word)
    requires mask & 0xfff == 0
    ensures vaddr & mask != 0xffff_ffff_ffff_ffff
  {
  }

  lemma MaskedAddress(addr: Word, mask: Word)
    requires addr != 0xffff_ffff_ffff_ffff
    ensures addr & mask != 0xffff_ffff_ffff_ffff
  {
  }

  lemma SamePageIndex(f: Word, page: Word)
    requires page == f & (0xffff_ffff_ffff_f000 | 0x8)
    ensures ((f >> 12) & 0xff) == ((page >> 12) & 0xff)
  {
  }

  lemma MaskedIndex(addr: Word)
    ensures (((addr & 0xffff_ffff_ffff_f000) >> 12) & 0xff) == ((addr >> 12) & 0xff)
  {
  }

  lemma EmptyMapsNothing(addr: Word)
    ensures addr & 0xffff_ffff_ffff_f000 != 0xffff_ffff_ffff_ffff & (0xffff_ffff_ffff_f000 | 0x8)
  {
  }

  /** Ones, then zeros: shifting left only clears bits. */
  predicate PrefixMask(m: Word) { (m << 1) & m == m << 1 }

  predicate Within(m: Word, m': Word) { m & m' == m }

  predicate Agree(a: Word, b: Word, mask: Word) { a & mask == b & mask }

  /** The page of mask pageMask around v lies in the area of the pair. */
  predicate Covered(v: Word, pageMask: Word, addr: Word, mask: Word) {
    mask & pageMask == mask && v & mask == addr
  }

  /** The second pair's area contains the first's. */
  predicate Widens(addr: Word, mask: Word, addr': Word, mask': Word) {
    mask' & mask == mask' && addr' == addr & mask'
  }

  /** A size that is a power of two and larger than a page. */
  predicate LargeSize(size: Word) {
    size != 0 && size & (size - 1) == 0 && 0x1000 < size
  }

  predicate PageMaskOk(m: Word) { PrefixMask(m) && m & 0xfff == 0 }

  function SizeToMask(size: Word): Word { !(size - 1) }

  lemma LargeSizeMask(size: Word)
    requires LargeSize(size)
    ensures PageMaskOk(SizeToMask(size))
  {
    SizeMask(size);
  }

  lemma CoveredAgrees(a: Word, v: Word, pageMask: Word, addr: Word, mask: Word)
    requires Covered(v, pageMask, addr, mask) && Agree(a, v, pageMask)
    ensures a & mask == addr
  {
    CoveredAddress(a, v, pageMask, mask);
  }

  lemma StaysCovered(v: Word, pageMask: Word, addr: Word, mask: Word, addr': Word, mask': Word)
    requires Covered(v, pageMask, addr, mask) && Widens(addr, mask, addr', mask')
    ensures Covered(v, pageMask, addr', mask')
  {
    Narrowed(v, pageMask, addr, mask, addr', mask');
  }

  lemma WidenStep(mask: Word, mask0: Word, x: Word)
    requires PrefixMask(mask) && Within(mask, mask0) && x & mask != 0
    ensures PrefixMask(mask << 1) && Within(mask << 1, mask0) && mask << 1 < mask
  {
    ShiftStep(mask, mask0, x);
  }

  lemma WidenDone(a: Word, b: Word, mask: Word)
    requires (a ^ b) & mask == 0
    ensures Agree(a, b, mask)
  {
    XorTest(a, b, mask);
  }

  lemma WithinItself(m: Word)
    ensures Within(m, m)
  {
  }

  lemma MeetPrefix(a: Word, b: Word)
    requires PrefixMask(a) && PrefixMask(b)
    ensures PrefixMask(a & b)
  {
    AndKeepsPrefix(a, b);
  }

  lemma PairFor(addr: Word, vaddr: Word, pageMask: Word, mask0: Word, mask: Word)
    requires Within(mask, pageMask & mask0) && Agree(addr, vaddr, mask)
    ensures Covered(vaddr, pageMask, addr & mask, mask) && Widens(addr, mask0, addr & mask, mask)
  {
    WithinAnd(mask, pageMask, mask0);
  }

  lemma FirstPair(vaddr: Word, pageMask: Word)
    requires PageMaskOk(pageMask)
    ensures Covered(vaddr, pageMask, vaddr & pageMask, pageMask) && vaddr & pageMask != 0xffff_ffff_ffff_ffff
  {
    WithinItself(pageMask);
    LowBitsClear(vaddr, pageMask);
  }

  /** Slot of an address in the table of an MMU mode. */
  function IndexOf(addr: Word): Word { (addr >> 12) & 0xff }

  function PageOf(addr: Word): Word { addr & 0xffff_ffff_ffff_f000 }

  /** A field of an entry maps the page at `page`: the comparison of a TLB hit. */
  predicate FieldMaps(f: Word, page: Word) {
    page == f & (0xffff_ffff_ffff_f000 | 0x8)
  }

  /** A field is empty or belongs to its slot. */
  predicate FieldAt(f: Word, index: Word) {
    f == 0xffff_ffff_ffff_ffff || IndexOf(f) == index
  }

  /** A field in another slot does not map the page. */
  lemma OtherSlotMisses(f: Word, index: Word, addr: Word)
    requires FieldAt(f, index) && index != IndexOf(addr)
    ensures !FieldMaps(f, PageOf(addr))
  {
    EmptyMapsNothing(addr);
    MaskedIndex(addr);
    if FieldMaps(f, PageOf(addr)) && f != 0xffff_ffff_ffff_ffff {
      SamePageIndex(f, PageOf(addr));
    }
  }

  lemma EmptyFieldMisses(addr: Word)
    ensures !FieldMaps(0xffff_ffff_ffff_ffff, PageOf(addr))
  {
    EmptyMapsNothing(addr);
  }

  lemma IndexBound(addr: Word)
    ensures IndexOf(addr) <= 0xff
  {
  }

  predicate PageAligned(vaddr: Word) { vaddr & 0xfff == 0 }

  /** The flag bits of a field: I/O and clean-page traps. */
  predicate Flags(flags: Word) { flags & 0x30 == flags }

  /** A field made of an aligned address and flags is in its slot and maps its page. */
  lemma FieldOf(vaddr: Word, flags: Word)
    requires PageAligned(vaddr) && Flags(flags)
    ensures FieldAt(vaddr | flags, IndexOf(vaddr)) && FieldMaps(vaddr | flags, vaddr)
  {
    FieldBits(vaddr, flags);
  }

  lemma FlagBits(vaddr: Word, flags: Word)
    requires vaddr & 0xfff == 0 && flags & 0x30 == flags
    ensures (vaddr | flags) & !(0x20 | 0x10) == vaddr
    ensures (vaddr | flags) & 0x20 == flags & 0x20 && (vaddr | flags) & 0x10 == flags & 0x10
  {
  }

  lemma AlignedIsPage(vaddr: Word)
    requires vaddr & 0xfff == 0
    ensures vaddr & 0xffff_ffff_ffff_f000 == vaddr
  {
  }

  lemma FieldBits(vaddr: Word, flags: Word)
    requires vaddr & 0xfff == 0 && flags & 0x30 == flags
    ensures vaddr == (vaddr | flags) & (0xffff_ffff_ffff_f000 | 0x8)
    ensures (((vaddr | flags) >> 12) & 0xff) == ((vaddr >> 12) & 0xff)
  {
  }
}

/** The software TLB: tracking of large pages by one address/mask pair, and page flushes. */
module Tlb {
  import opened Masks

  const ALL_ONES: Word := 0xffff_ffff_ffff_ffff

  /** A large page: an address in it and the mask of its size. */
  datatype LargePage = LargePage(vaddr: Word, mask: Word)

  predicate InPage(a: Word, p: LargePage) {
    Agree(a, p.vaddr, p.mask)
  }

  predicate PageCovered(p: LargePage, addr: Word, mask: Word) {
    Covered(p.vaddr, p.mask, addr, mask)
  }

  /** What the pair says about the large pages added since the last full flush. */
  ghost predicate AllCovered(large: seq<LargePage>, addr: Word, mask: Word) {
    if large == [] then addr == ALL_ONES && mask == 0
    else
      && addr != ALL_ONES && PrefixMask(mask)
      && forall i :: 0 <= i < |large| ==> PageCovered(large[i], addr, mask)
  }

  /** Every address of every large page passes the flush test. */
  lemma FlushTestCovers(large: seq<LargePage>, addr: Word, mask: Word, i: nat, a: Word)
    requires AllCovered(large, addr, mask) && i < |large| && InPage(a, large[i])
    ensures a & mask == addr
  {
    assert PageCovered(large[i], addr, mask);
    CoveredAgrees(a, large[i].vaddr, large[i].mask, addr, mask);
  }

  /** The mask-widening loop: it ends with the two addresses agreeing under a mask within the
      one it started from. */
  method WidenMask(addr: Word, vaddr: Word, mask0: Word) returns (mask: Word)
    requires PrefixMask(mask0)
    ensures PrefixMask(mask) && Within(mask, mask0) && Agree(addr, vaddr, mask)
  {
    mask := mask0;
    WithinItself(mask);
    while (addr ^ vaddr) & mask != 0
      invariant PrefixMask(mask) && Within(mask, mask0)
      decreases mask
    {
      WidenStep(mask, mask0, addr ^ vaddr);
      mask := mask << 1;
    }
    WidenDone(addr, vaddr, mask);
  }

  lemma AllStayCovered(large: seq<LargePage>, addr: Word, mask: Word, addr': Word, mask': Word, p: LargePage)
    requires large != [] && AllCovered(large, addr, mask) && Widens(addr, mask, addr', mask')
    requires PageCovered(p, addr', mask') && PrefixMask(mask') && addr' != ALL_ONES
    ensures AllCovered(large + [p], addr', mask')
  {
    forall i | 0 <= i < |large| ensures PageCovered(large[i], addr', mask') {
      assert PageCovered(large[i], addr, mask);
      Masks.StaysCovered(large[i].vaddr, large[i].mask, addr, mask, addr', mask');
    }
  }

  /** The pair after one more large page: the page itself, or the area widened to include it. */
  method NewPair(flushAddr: Word, flushMask: Word, vaddr: Word, pageMask: Word) returns (addr: Word, mask: Word)
    requires PageMaskOk(pageMask)
    requires flushAddr != ALL_ONES ==> PrefixMask(flushMask)
    ensures addr != ALL_ONES && PrefixMask(mask) && Covered(vaddr, pageMask, addr, mask)
    ensures flushAddr != ALL_ONES ==> Widens(flushAddr, flushMask, addr, mask)
  {
    if flushAddr == ALL_ONES {
      FirstPair(vaddr, pageMask);
      return vaddr & pageMask, pageMask;
    }
    MeetPrefix(pageMask, flushMask);
    mask := pageMask & flushMask;
    mask := WidenMask(flushAddr, vaddr, mask);
    PairFor(flushAddr, vaddr, pageMask, flushMask, mask);
    MaskedAddress(flushAddr, mask);
    addr := flushAddr & mask;
  }

  datatype TLBEntry = TLBEntry(addrRead: Word, addrWrite: Word, addrCode: Word)

  const FLUSHED: TLBEntry := TLBEntry(ALL_ONES, ALL_ONES, ALL_ONES)
  const TLB_NOTDIRTY: Word := 0x10
  const TLB_MMIO: Word := 0x20
  const TARGET_PAGE_SIZE: Word := 0x1000
  const INDEX_MAX: Word := 0xff

  predicate Maps(e: TLBEntry, page: Word) {
    FieldMaps(e.addrRead, page) || FieldMaps(e.addrWrite, page) || FieldMaps(e.addrCode, page)
  }

  predicate EntryAt(e: TLBEntry, index: Word) {
    FieldAt(e.addrRead, index) && FieldAt(e.addrWrite, index) && FieldAt(e.addrCode, index)
  }

  lemma FlushedMisses(addr: Word)
    ensures !Maps(FLUSHED, PageOf(addr))
  {
    EmptyFieldMisses(addr);
  }

  lemma OtherEntryMisses(e: TLBEntry, index: Word, addr: Word)
    requires EntryAt(e, index) && index != IndexOf(addr)
    ensures !Maps(e, PageOf(addr))
  {
    OtherSlotMisses(e.addrRead, index, addr);
    OtherSlotMisses(e.addrWrite, index, addr);
    OtherSlotMisses(e.addrCode, index, addr);
  }

  /** What the page's protection and its memory region decide about an entry. */
  datatype Access = Access(
    read: bool, write: bool, exec: bool,
    isRam: bool, isRomd: bool, isTlmuRamd: bool, readOnly: bool, clean: bool, watched: bool)

  function CodeFlags(a: Access): Word {
    if !(a.isRam || a.isRomd) || a.isTlmuRamd then TLB_MMIO else 0
  }

  function ReadFlags(a: Access): Word {
    CodeFlags(a) | if a.watched then TLB_MMIO else 0
  }

  function WriteFlags(a: Access): Word {
    if (a.isRam && a.readOnly) || a.isRomd || a.isTlmuRamd then ReadFlags(a) | TLB_MMIO
    else if a.isRam && a.clean then ReadFlags(a) | TLB_NOTDIRTY
    else ReadFlags(a)
  }

  function Field(on: bool, vaddr: Word, flags: Word): Word {
    if on then vaddr | flags else ALL_ONES
  }

  /** A hit on the page exactly if the access is permitted, with exactly these flags; empty otherwise. */
  predicate FieldIs(f: Word, permitted: bool, page: Word, mmio: bool, notDirty: bool) {
    && (FieldMaps(f, page) <==> permitted)
    && if permitted then
         && f & !(TLB_MMIO | TLB_NOTDIRTY) == page
         && (f & TLB_MMIO != 0 <==> mmio) && (f & TLB_NOTDIRTY != 0 <==> notDirty)
       else
         f == ALL_ONES
  }

  lemma FieldOn(vaddr: Word, flags: Word)
    requires PageAligned(vaddr) && Flags(flags)
    ensures FieldIs(vaddr | flags, true, vaddr, flags & 0x20 != 0, flags & 0x10 != 0)
  {
    FieldOf(vaddr, flags);
    FlagBits(vaddr, flags);
  }

  lemma FieldOff(vaddr: Word, mmio: bool, notDirty: bool)
    requires PageAligned(vaddr)
    ensures FieldIs(ALL_ONES, false, vaddr, mmio, notDirty)
  {
    AlignedIsPage(vaddr);
    EmptyFieldMisses(vaddr);
  }

  lemma FieldMade(on: bool, vaddr: Word, flags: Word, mmio: bool, notDirty: bool)
    requires PageAligned(vaddr) && Flags(flags) && (flags & 0x20 != 0 <==> mmio) && (flags & 0x10 != 0 <==> notDirty)
    ensures var f := Field(on, vaddr, flags);
      FieldAt(f, IndexOf(vaddr)) && FieldIs(f, on, vaddr, mmio, notDirty)
  {
    if on {
      FieldOn(vaddr, flags);
      FieldOf(vaddr, flags);
    } else {
      FieldOff(vaddr, mmio, notDirty);
    }
  }

  function EntryFor(vaddr: Word, a: Access): TLBEntry {
    TLBEntry(Field(a.read, vaddr, ReadFlags(a)),
             Field(a.write, vaddr, WriteFlags(a)),
             Field(a.exec, vaddr, CodeFlags(a)))
  }

  /** The region is not memory that the processor reaches directly. */
  predicate IsIo(a: Access) { !(a.isRam || a.isRomd) || a.isTlmuRamd }

  /** The memory is not written directly. */
  predicate IsFixed(a: Access) { (a.isRam && a.readOnly) || a.isRomd }

  /** Each access hits the entry exactly if it is permitted. All go to the I/O path if the region is not
      memory, data accesses also if the page is watched, and writes also if the memory is not writable;
      a write to clean writable RAM is trapped. */
  predicate EntryOk(e: TLBEntry, vaddr: Word, a: Access) {
    && FieldIs(e.addrRead, a.read, vaddr, IsIo(a) || a.watched, false)
    && FieldIs(e.addrCode, a.exec, vaddr, IsIo(a), false)
    && FieldIs(e.addrWrite, a.write, vaddr, IsIo(a) || a.watched || IsFixed(a), !IsIo(a) && !IsFixed(a) && a.clean)
  }

  lemma ReadFlagsAre(a: Access)
    ensures ReadFlags(a) == if IsIo(a) || a.watched then 0x20 else 0
  {
  }

  lemma WriteFlagsAre(a: Access)
    ensures WriteFlags(a) ==
      if !IsIo(a) && !IsFixed(a) && a.clean then (if a.watched then 0x30 else 0x10)
      else if IsIo(a) || a.watched || IsFixed(a) then 0x20 else 0
  {
    ReadFlagsAre(a);
  }

  lemma CodeField(vaddr: Word, a: Access)
    requires PageAligned(vaddr)
    ensures var f := Field(a.exec, vaddr, CodeFlags(a));
      FieldAt(f, IndexOf(vaddr)) && FieldIs(f, a.exec, vaddr, IsIo(a), false)
  {
    FieldMade(a.exec, vaddr, CodeFlags(a), IsIo(a), false);
  }

  lemma ReadField(vaddr: Word, a: Access)
    requires PageAligned(vaddr)
    ensures var f := Field(a.read, vaddr, ReadFlags(a));
      FieldAt(f, IndexOf(vaddr)) && FieldIs(f, a.read, vaddr, IsIo(a) || a.watched, false)
  {
    ReadFlagsAre(a);
    FieldMade(a.read, vaddr, ReadFlags(a), IsIo(a) || a.watched, false);
  }

  lemma WriteField(vaddr: Word, a: Access)
    requires PageAligned(vaddr)
    ensures var f := Field(a.write, vaddr, WriteFlags(a));
      && FieldAt(f, IndexOf(vaddr))
      && FieldIs(f, a.write, vaddr, IsIo(a) || a.watched || IsFixed(a), !IsIo(a) && !IsFixed(a) && a.clean)
  {
    WriteFlagsAre(a);
    FieldMade(a.write, vaddr, WriteFlags(a), IsIo(a) || a.watched || IsFixed(a), !IsIo(a) && !IsFixed(a) && a.clean);
  }

  /** A new entry is in its slot, and each of its fields is what the page's protection and region ask for. */
  lemma EntryForMaps(vaddr: Word, a: Access)
    requires PageAligned(vaddr)
    ensures EntryAt(EntryFor(vaddr, a), IndexOf(vaddr)) && EntryOk(EntryFor(vaddr, a), vaddr, a)
  {
    CodeField(vaddr, a);
    ReadField(vaddr, a);
    WriteField(vaddr, a);
  }

  type Table = map<(nat, Word), TLBEntry>

  /** The loop of `tlb_flush_page` over the MMU modes. */
  method FlushSlot(table: Table, modes: nat, index: Word, page: Word) returns (r: Table)
    requires forall m: nat :: m < modes ==> (m, index) in table
    ensures r.Keys == table.Keys
    ensures forall k: (nat, Word) :: k in table ==>
      r[k] == if k.0 < modes && k.1 == index && Maps(table[k], page) then FLUSHED else table[k]
  {
    r := table;
    var m := 0;
    while m < modes
      invariant 0 <= m <= modes && r.Keys == table.Keys
      invariant forall k: (nat, Word) :: k in table ==>
        r[k] == if k.0 < m && k.1 == index && Maps(table[k], page) then FLUSHED else table[k]
    {
      if Maps(r[(m, index)], page) {
        r := r[(m, index) := FLUSHED];
      }
      m := m + 1;
    }
  }

  lemma FlushedSlotUnmaps(table: Table, r: Table, modes: nat, addr: Word, k: (nat, Word))
    requires k in table && k in r && k.0 < modes && EntryAt(table[k], k.1)
    requires r[k] == if k.0 < modes && k.1 == IndexOf(addr) && Maps(table[k], PageOf(addr)) then FLUSHED else table[k]
    ensures !Maps(r[k], PageOf(addr)) && EntryAt(r[k], k.1)
  {
    FlushedMisses(addr);
    if k.1 != IndexOf(addr) {
      OtherEntryMisses(table[k], k.1, addr);
    }
  }

  class CPUTLB {
    var flushAddr: Word
    var flushMask: Word
    /** Keyed by MMU mode and slot. */
    var table: Table
    const nbMmuModes: nat
    /** Large pages added since the last full flush. */
    ghost var large: seq<LargePage>

    ghost predicate TableOk()
      reads this
    {
      && (forall m: nat, i: Word :: m < nbMmuModes && i <= INDEX_MAX ==> (m, i) in table)
      && (forall k: (nat, Word) :: k in table ==> k.0 < nbMmuModes && k.1 <= INDEX_MAX && EntryAt(table[k], k.1))
    }

    ghost predicate Valid()
      reads this
    {
      TableOk() && AllCovered(large, flushAddr, flushMask)
    }

    /** A TLB over the given cells, all of them flushed. */
    constructor (modes: nat, cells: set<(nat, Word)>)
      requires forall m: nat, i: Word :: (m, i) in cells <==> m < modes && i <= INDEX_MAX
      ensures Valid() && large == [] && nbMmuModes == modes
    {
      nbMmuModes := modes;
      table := map k: (nat, Word) | k in cells :: FLUSHED;
      flushAddr, flushMask, large := ALL_ONES, 0, [];
    }

    /** No entry of any mode maps the page of addr. */
    ghost predicate Unmapped(addr: Word)
      reads this
    {
      forall k: (nat, Word) :: k in table ==> !Maps(table[k], PageOf(addr))
    }

    /** `tlb_flush`. */
    method Flush()
      requires TableOk()
      modifies this
      ensures Valid() && large == [] && table.Keys == old(table.Keys)
      ensures forall k: (nat, Word) :: k in table ==> table[k] == FLUSHED
    {
      table := map k | k in table :: FLUSHED;
      flushAddr := ALL_ONES;
      flushMask := 0;
      large := [];
    }

    /** `tlb_add_large_page`. */
    method AddLargePage(vaddr: Word, size: Word)
      requires Valid() && LargeSize(size)
      modifies this`flushAddr, this`flushMask, this`large
      ensures Valid() && large == old(large) + [LargePage(vaddr, SizeToMask(size))]
    {
      LargeSizeMask(size);
      var pageMask := SizeToMask(size);
      var addr, mask := NewPair(flushAddr, flushMask, vaddr, pageMask);
      ghost var page := LargePage(vaddr, pageMask);
      if large != [] {
        AllStayCovered(large, flushAddr, flushMask, addr, mask, page);
      }
      flushAddr, flushMask := addr, mask;
      large := large + [page];
    }

    /** The entry and large-page part of `tlb_set_page`. */
    method SetPage(vaddr: Word, access: Access, mmuIdx: nat, size: Word)
      requires Valid() && mmuIdx < nbMmuModes && PageAligned(vaddr)
      requires size == TARGET_PAGE_SIZE || LargeSize(size)
      modifies this
      ensures Valid()
      ensures large ==
        if size == TARGET_PAGE_SIZE then old(large) else old(large) + [LargePage(vaddr, SizeToMask(size))]
      ensures table == old(table)[(mmuIdx, IndexOf(vaddr)) := EntryFor(vaddr, access)]
      ensures EntryOk(EntryFor(vaddr, access), vaddr, access)
    {
      if size != TARGET_PAGE_SIZE {
        AddLargePage(vaddr, size);
      }
      EntryForMaps(vaddr, access);
      IndexBound(vaddr);
      table := table[(mmuIdx, IndexOf(vaddr)) := EntryFor(vaddr, access)];
    }

    /** The second half of `tlb_flush_page`: the slot of the address in every mode. */
    method FlushEntries(addr: Word)
      requires TableOk()
      modifies this`table
      ensures TableOk() && Unmapped(addr) && table.Keys == old(table.Keys)
      ensures forall k: (nat, Word) :: k in table ==>
        table[k] == if k.1 == IndexOf(addr) && Maps(old(table)[k], PageOf(addr)) then FLUSHED else old(table)[k]
    {
      IndexBound(addr);
      ghost var table0 := table;
      table := FlushSlot(table, nbMmuModes, IndexOf(addr), PageOf(addr));
      forall k: (nat, Word) | k in table ensures !Maps(table[k], PageOf(addr)) && EntryAt(table[k], k.1) {
        FlushedSlotUnmaps(table0, table, nbMmuModes, addr, k);
      }
    }

    /** `tlb_flush_page`: a full flush when the address may be in a large page, else the entry of
        its slot in every mode. Either way nothing maps the page afterwards, and flushing any
        address of a large page flushes everything. */
    method FlushPage(addr: Word)
      requires Valid()
      modifies this
      ensures Valid() && Unmapped(addr) && table.Keys == old(table.Keys)
      ensures forall i :: 0 <= i < |old(large)| && InPage(addr, old(large)[i]) ==>
        large == [] && forall k: (nat, Word) :: k in table ==> table[k] == FLUSHED
      ensures old(addr & flushMask == flushAddr) ==>
        large == [] && forall k: (nat, Word) :: k in table ==> table[k] == FLUSHED
      ensures old(addr & flushMask != flushAddr) ==>
        && large == old(large) && flushAddr == old(flushAddr) && flushMask == old(flushMask)
        && forall k: (nat, Word) :: k in table ==>
             table[k] == if k.1 == IndexOf(addr) && Maps(old(table)[k], PageOf(addr)) then FLUSHED else old(table)[k]
    {
      forall i | 0 <= i < |large| && InPage(addr, large[i]) ensures addr & flushMask == flushAddr {
        FlushTestCovers(large, flushAddr, flushMask, i, addr);
      }
      if addr & flushMask == flushAddr {
        Flush();
        FlushedMisses(addr);
      } else {
        FlushEntries(addr);
      }
    }
  }
}
