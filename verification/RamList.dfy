/** The list of RAM blocks: gap search, insertion, removal and the cached lookup. */
module RamList {
  import opened Values

  /** A run of the ram address space. */
  datatype Block = Block(offset: nat, length: nat) {
    function End(): nat { offset + length }
    predicate Contains(addr: nat) { offset <= addr < End() }
  }

  /** Largest ram address; it stays symbolic. */
  const RAM_ADDR_MAX: nat

  predicate Apart(a: Block, b: Block) {
    a.End() <= b.offset || b.End() <= a.offset
  }

  predicate Disjoint(blocks: seq<Block>) {
    forall i, j :: 0 <= i < j < |blocks| ==> Apart(blocks[i], blocks[j])
  }

  /** No block is empty or passes the end of the ram address space. */
  predicate Proper(blocks: seq<Block>) {
    forall i :: 0 <= i < |blocks| ==> 0 < blocks[i].length && blocks[i].End() <= RAM_ADDR_MAX
  }

  /** Biggest block first. */
  predicate ByLength(blocks: seq<Block>) {
    forall i, j :: 0 <= i < j < |blocks| ==> blocks[i].length >= blocks[j].length
  }

  predicate ListOk(blocks: seq<Block>) {
    Disjoint(blocks) && Proper(blocks) && ByLength(blocks)
  }

  function Min(a: nat, b: nat): nat { if a <= b then a else b }

  /** Where the first of blocks[..k] at or after `end` starts, RAM_ADDR_MAX if there is none. */
  function NextStart(blocks: seq<Block>, k: nat, end: nat): nat
    requires k <= |blocks|
  {
    if k == 0 then RAM_ADDR_MAX
    else if blocks[k - 1].offset >= end then Min(NextStart(blocks, k - 1, end), blocks[k - 1].offset)
    else NextStart(blocks, k - 1, end)
  }

  /** The free space after block i. */
  function Gap(blocks: seq<Block>, i: nat): int
    requires i < |blocks|
  {
    NextStart(blocks, |blocks|, blocks[i].End()) - blocks[i].End()
  }

  /** A run of n bytes behind block i stays in the ram address space and ends before the next block. */
  predicate Fits(blocks: seq<Block>, i: nat, n: nat)
    requires i < |blocks|
  {
    var end := blocks[i].End();
    && end + n <= RAM_ADDR_MAX
    && forall j :: 0 <= j < |blocks| && end <= blocks[j].offset ==> end + n <= blocks[j].offset
  }

  lemma {:induction false} NextStartIs(blocks: seq<Block>, k: nat, end: nat)
    requires k <= |blocks| && end <= RAM_ADDR_MAX
    ensures end <= NextStart(blocks, k, end) <= RAM_ADDR_MAX
    ensures forall i :: 0 <= i < k && blocks[i].offset >= end ==> NextStart(blocks, k, end) <= blocks[i].offset
    ensures NextStart(blocks, k, end) == RAM_ADDR_MAX ||
      exists i :: 0 <= i < k && blocks[i].offset >= end && NextStart(blocks, k, end) == blocks[i].offset
  {
    if k > 0 {
      NextStartIs(blocks, k - 1, end);
    }
  }

  /** The gap behind a block is the longest run that fits there. */
  lemma GapFits(blocks: seq<Block>, i: nat)
    requires i < |blocks| && blocks[i].End() <= RAM_ADDR_MAX
    ensures Gap(blocks, i) >= 0 && forall n: nat :: Fits(blocks, i, n) <==> n <= Gap(blocks, i)
  {
    NextStartIs(blocks, |blocks|, blocks[i].End());
  }

  /** The space behind block i holds `size` and is the smallest that does, the first of that size in the
      list: what fits behind it fits behind any other that holds `size`, and not conversely for earlier ones. */
  ghost predicate SmallestFit(blocks: seq<Block>, size: nat, i: nat)
    requires i < |blocks|
  {
    && Fits(blocks, i, size)
    && forall j :: 0 <= j < |blocks| && Fits(blocks, j, size) ==>
      && (forall n: nat :: Fits(blocks, i, n) ==> Fits(blocks, j, n))
      && (j < i ==> exists n: nat :: Fits(blocks, j, n) && !Fits(blocks, i, n))
  }

  ghost predicate BestFit(blocks: seq<Block>, size: nat, offset: nat) {
    exists i :: 0 <= i < |blocks| && offset == blocks[i].End() && SmallestFit(blocks, size, i)
  }

  ghost predicate NoFit(blocks: seq<Block>, size: nat) {
    forall i :: 0 <= i < |blocks| ==> !Fits(blocks, i, size)
  }

  lemma SmallestGap(blocks: seq<Block>, size: nat, i: nat)
    requires Proper(blocks) && i < |blocks| && size <= Gap(blocks, i)
    requires forall j :: 0 <= j < |blocks| && size <= Gap(blocks, j) ==> Gap(blocks, i) <= Gap(blocks, j)
    requires forall j :: 0 <= j < i && size <= Gap(blocks, j) ==> Gap(blocks, i) < Gap(blocks, j)
    ensures SmallestFit(blocks, size, i)
  {
    GapFits(blocks, i);
    forall j | 0 <= j < |blocks| && Fits(blocks, j, size)
      ensures forall n: nat :: Fits(blocks, i, n) ==> Fits(blocks, j, n)
      ensures j < i ==> exists n: nat :: Fits(blocks, j, n) && !Fits(blocks, i, n)
    {
      GapFits(blocks, j);
      if j < i {
        assert Fits(blocks, j, Gap(blocks, j)) && !Fits(blocks, i, Gap(blocks, j));
      }
    }
  }

  /** `find_ram_offset`; None is the abort when nothing is large enough. */
  method FindRamOffset(blocks: seq<Block>, size: nat) returns (offset: Option<nat>)
    requires Proper(blocks) && size > 0
    ensures blocks == [] ==> offset == Some(0)
    ensures blocks != [] ==> (offset.None? <==> NoFit(blocks, size))
    ensures blocks != [] && offset.Some? ==> BestFit(blocks, size, offset.value)
  {
    if blocks == [] {
      return Some(0);
    }
    var found: nat, mingap: nat := RAM_ADDR_MAX, RAM_ADDR_MAX;
    ghost var best: nat := |blocks|;
    for k := 0 to |blocks|
      invariant found == RAM_ADDR_MAX ==>
        mingap == RAM_ADDR_MAX && forall j :: 0 <= j < k ==> Gap(blocks, j) < size
      invariant found != RAM_ADDR_MAX ==>
        && best < k && blocks[best].End() == found && mingap == Gap(blocks, best) && size <= mingap
        && (forall j :: 0 <= j < k && size <= Gap(blocks, j) ==> mingap <= Gap(blocks, j))
        && (forall j :: 0 <= j < best && size <= Gap(blocks, j) ==> mingap < Gap(blocks, j))
    {
      var end := blocks[k].End();
      var next: nat := RAM_ADDR_MAX;
      for m := 0 to |blocks|
        invariant next == NextStart(blocks, m, end)
      {
        if blocks[m].offset >= end {
          next := Min(next, blocks[m].offset);
        }
      }
      NextStartIs(blocks, |blocks|, end);
      if next - end >= size && next - end < mingap {
        found := end;
        mingap := next - end;
        best := k;
      }
    }
    forall i | 0 <= i < |blocks| ensures Fits(blocks, i, size) <==> size <= Gap(blocks, i) {
      GapFits(blocks, i);
    }
    if found == RAM_ADDR_MAX {
      return None;
    }
    SmallestGap(blocks, size, best);
    return Some(found);
  }

  /** A block placed where it fits is apart from every block of the list. */
  lemma FitIsApart(blocks: seq<Block>, size: nat, i: nat, j: nat)
    requires Disjoint(blocks) && Proper(blocks) && size > 0 && i < |blocks| && j < |blocks| && Fits(blocks, i, size)
    ensures Apart(blocks[j], Block(blocks[i].End(), size)) && blocks[i].End() + size <= RAM_ADDR_MAX
  {
    assert i == j || Apart(blocks[i], blocks[j]);
  }

  /** The scan of the list for an address. */
  function ScanFor(blocks: seq<Block>, addr: nat): Option<Block> {
    if blocks == [] then None
    else if blocks[0].Contains(addr) then Some(blocks[0])
    else ScanFor(blocks[1..], addr)
  }

  lemma {:induction false} ScanFinds(blocks: seq<Block>, addr: nat, i: nat)
    requires Disjoint(blocks) && i < |blocks| && blocks[i].Contains(addr)
    ensures ScanFor(blocks, addr) == Some(blocks[i])
  {
    if i > 0 {
      assert Apart(blocks[0], blocks[i]);
      assert blocks[1..][i - 1] == blocks[i];
      ScanFinds(blocks[1..], addr, i - 1);
    }
  }

  lemma {:induction false} ScanSuffix(blocks: seq<Block>, addr: nat, k: nat)
    requires k <= |blocks| && forall i :: 0 <= i < k ==> !blocks[i].Contains(addr)
    ensures ScanFor(blocks, addr) == ScanFor(blocks[k..], addr)
  {
    if k > 0 {
      assert blocks[k..] == blocks[1..][k - 1..];
      forall i | 0 <= i < k - 1 ensures !blocks[1..][i].Contains(addr) {
        assert blocks[1..][i] == blocks[i + 1];
      }
      ScanSuffix(blocks[1..], addr, k - 1);
    } else {
      assert blocks[0..] == blocks;
    }
  }

  /** `after` is `before` without the one block that starts at addr. */
  ghost predicate RemovedAt(before: seq<Block>, after: seq<Block>, addr: nat) {
    exists i :: 0 <= i < |before| && before[i].offset == addr && after == before[..i] + before[i + 1..]
  }

  lemma RemoveOk(blocks: seq<Block>, k: nat)
    requires ListOk(blocks) && k < |blocks|
    ensures ListOk(blocks[..k] + blocks[k + 1..])
  {
    var r := blocks[..k] + blocks[k + 1..];
    assert forall i :: 0 <= i < |r| ==> r[i] == if i < k then blocks[i] else blocks[i + 1];
  }

  class RAMList {
    var blocks: seq<Block>
    var mru: Option<Block>
    var version: nat

    /** Every state reachable by adds, frees and lookups. */
    ghost predicate Valid()
      reads this
    {
      ListOk(blocks) && (mru.Some? ==> mru.value in blocks)
    }

    constructor ()
      ensures Valid() && blocks == []
    {
      blocks, mru, version := [], None, 0;
    }

    /** `ram_block_add`; None is the abort. */
    method Add(length: nat) returns (offset: Option<nat>)
      requires Valid() && 0 < length <= RAM_ADDR_MAX
      modifies this
      ensures Valid()
      ensures offset.Some? ==> multiset(blocks) == multiset(old(blocks)) + multiset{Block(offset.value, length)}
      ensures offset.Some? ==> version == old(version) + 1
      ensures offset.Some? && old(blocks) == [] ==> offset.value == 0
      ensures offset.Some? && old(blocks) != [] ==> BestFit(old(blocks), length, offset.value)
      ensures offset.None? <==> old(blocks) != [] && NoFit(old(blocks), length)
      ensures offset.None? ==> blocks == old(blocks) && mru == old(mru) && version == old(version)
    {
      offset := FindRamOffset(blocks, length);
      if offset.None? {
        return;
      }
      var block := Block(offset.value, length);
      forall j | 0 <= j < |blocks| ensures Apart(blocks[j], block) && block.End() <= RAM_ADDR_MAX {
        var i :| 0 <= i < |blocks| && offset.value == blocks[i].End() && SmallestFit(blocks, length, i);
        FitIsApart(blocks, length, i, j);
      }
      var k := PlaceByLength(blocks, length);
      InsertOk(blocks, block, k);
      blocks := Inserted(blocks, block, k);
      mru := None;
      version := version + 1;
    }

    /** `qemu_ram_free` of the block that starts at addr, if there is one. */
    method Free(addr: nat)
      requires Valid()
      modifies this
      ensures Valid()
      ensures (forall i :: 0 <= i < |old(blocks)| ==> old(blocks)[i].offset != addr) ==>
        blocks == old(blocks) && version == old(version) && mru == old(mru)
      ensures (exists i :: 0 <= i < |old(blocks)| && old(blocks)[i].offset == addr) ==>
        RemovedAt(old(blocks), blocks, addr) && version == old(version) + 1 && mru == None
    {
      var i := 0;
      while i < |blocks|
        invariant 0 <= i <= |blocks| && blocks == old(blocks) && mru == old(mru) && version == old(version)
        invariant forall j :: 0 <= j < i ==> blocks[j].offset != addr
      {
        if addr == blocks[i].offset {
          RemoveOk(blocks, i);
          blocks := blocks[..i] + blocks[i + 1..];
          mru := None;
          version := version + 1;
          return;
        }
        i := i + 1;
      }
    }

    /** `qemu_get_ram_block`: the cached block first, then the scan; None is the abort. The answer
        is always that of the full scan. */
    method GetRamBlock(addr: nat) returns (found: Option<Block>)
      requires Valid()
      modifies this`mru
      ensures Valid() && found == ScanFor(blocks, addr)
      ensures found.Some? ==> mru == found && found.value in blocks
      ensures found.Some? ==> found.value.offset <= addr < found.value.offset + found.value.length
      ensures found.None? ==>
        forall i :: 0 <= i < |blocks| ==> addr < blocks[i].offset || blocks[i].offset + blocks[i].length <= addr
    {
      if mru.Some? && mru.value.Contains(addr) {
        ghost var i :| 0 <= i < |blocks| && blocks[i] == mru.value;
        ScanFinds(blocks, addr, i);
        return mru;
      }
      var i := 0;
      while i < |blocks|
        invariant 0 <= i <= |blocks| && mru == old(mru)
        invariant forall j :: 0 <= j < i ==> !blocks[j].Contains(addr)
      {
        if blocks[i].Contains(addr) {
          ScanFinds(blocks, addr, i);
          mru := Some(blocks[i]);
          return mru;
        }
        i := i + 1;
      }
      ScanSuffix(blocks, addr, i);
      found := None;
    }
  }

  /** Where the list, longest block first, has the place for a block of this length. */
  method PlaceByLength(blocks: seq<Block>, length: nat) returns (k: nat)
    ensures k <= |blocks| && (k < |blocks| ==> blocks[k].length < length)
    ensures forall i :: 0 <= i < k ==> blocks[i].length >= length
  {
    k := 0;
    while k < |blocks| && blocks[k].length >= length
      invariant k <= |blocks|
      invariant forall i :: 0 <= i < k ==> blocks[i].length >= length
    {
      k := k + 1;
    }
  }

  function Inserted(blocks: seq<Block>, block: Block, k: nat): (r: seq<Block>)
    requires k <= |blocks|
    ensures |r| == |blocks| + 1
    ensures forall i :: 0 <= i < |r| ==> r[i] == if i < k then blocks[i] else if i == k then block else blocks[i - 1]
  {
    blocks[..k] + [block] + blocks[k..]
  }

  lemma InsertDisjoint(blocks: seq<Block>, block: Block, k: nat)
    requires Disjoint(blocks) && k <= |blocks|
    requires forall j :: 0 <= j < |blocks| ==> Apart(blocks[j], block)
    ensures Disjoint(Inserted(blocks, block, k))
  {
    var r := Inserted(blocks, block, k);
    forall i, j | 0 <= i < j < |r| ensures Apart(r[i], r[j]) {
      if i == k {
        assert r[j] == blocks[j - 1];
      } else if j == k {
        assert r[i] == blocks[i];
      } else {
        var i', j' := if i < k then i else i - 1, if j < k then j else j - 1;
        assert Apart(blocks[i'], blocks[j']);
      }
    }
  }

  lemma InsertByLength(blocks: seq<Block>, block: Block, k: nat)
    requires ByLength(blocks) && k <= |blocks|
    requires forall i :: 0 <= i < k ==> blocks[i].length >= block.length
    requires k < |blocks| ==> blocks[k].length < block.length
    ensures ByLength(Inserted(blocks, block, k))
  {
    var r := Inserted(blocks, block, k);
    forall i, j | 0 <= i < j < |r| ensures r[i].length >= r[j].length {
      if i == k {
        assert r[j] == blocks[j - 1] && (k == j - 1 || blocks[k].length >= blocks[j - 1].length);
      } else if j == k {
        assert r[i] == blocks[i];
      } else {
        var i', j' := if i < k then i else i - 1, if j < k then j else j - 1;
        assert blocks[i'].length >= blocks[j'].length;
      }
    }
  }

  lemma InsertMultiset(blocks: seq<Block>, block: Block, k: nat)
    requires k <= |blocks|
    ensures multiset(Inserted(blocks, block, k)) == multiset(blocks) + multiset{block}
  {
    assert blocks == blocks[..k] + blocks[k..];
  }

  lemma InsertProper(blocks: seq<Block>, block: Block, k: nat)
    requires Proper(blocks) && k <= |blocks| && 0 < block.length && block.End() <= RAM_ADDR_MAX
    ensures Proper(Inserted(blocks, block, k))
  {
  }

  lemma InsertOk(blocks: seq<Block>, block: Block, k: nat)
    requires ListOk(blocks) && k <= |blocks| && 0 < block.length && block.End() <= RAM_ADDR_MAX
    requires forall j :: 0 <= j < |blocks| ==> Apart(blocks[j], block)
    requires forall i :: 0 <= i < k ==> blocks[i].length >= block.length
    requires k < |blocks| ==> blocks[k].length < block.length
    ensures ListOk(Inserted(blocks, block, k))
    ensures multiset(Inserted(blocks, block, k)) == multiset(blocks) + multiset{block}
  {
    InsertDisjoint(blocks, block, k);
    InsertByLength(blocks, block, k);
    InsertProper(blocks, block, k);
    InsertMultiset(blocks, block, k);
  }
}
