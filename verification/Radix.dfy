/** Index arithmetic of the physical page map: a page number is read as
    P_L2_LEVELS digits in base P_L2_SIZE, one digit per tree level. */
module Radix {
  import opened Arith

  /** The constants of the map.  They stay symbolic: every result holds for any
      fan-out, depth and page size that satisfy the constraint below. The witness is the
      64-bit address space with 9-bit levels and 4 KiB pages. */
  datatype Geometry = Geometry(l2Size: nat, levels: nat, pageSize: nat, spacePages: nat, nodeNil: nat)

  function Power(base: nat, exponent: nat): nat {
    if exponent == 0 then 1 else base * Power(base, exponent - 1)
  }

  predicate GeometryOk(g: Geometry) {
    && 2 <= g.l2Size
    && 1 <= g.levels
    && 4 < g.pageSize
    && 0 < g.spacePages <= Power(g.l2Size, g.levels)
    && 2 * g.levels * g.pageSize < g.nodeNil
  }

  type ValidGeometry = g: Geometry | GeometryOk(g)
    witness Geometry(512, 6, 4096, 0x10_0000_0000_0000, 0x3ff_ffff)

  const G: ValidGeometry
  const P_L2_SIZE: nat := G.l2Size
  const P_L2_LEVELS: nat := G.levels
  const TARGET_PAGE_SIZE: nat := G.pageSize
  const SPACE_PAGES: nat := G.spacePages
  const ADDR_SPACE: nat := SPACE_PAGES * TARGET_PAGE_SIZE
  const PHYS_MAP_NODE_NIL: nat := G.nodeNil

  /** Number of pages below one entry of a node at `level`. */
  function Step(level: nat): (s: nat)
    ensures s >= 1
  {
    PowerPositive(P_L2_SIZE, level);
    Power(P_L2_SIZE, level)
  }

  /** The digit of page number `p` that selects an entry of a node at `level`. */
  function Slot(p: nat, level: nat): (i: nat)
    ensures i < P_L2_SIZE
  {
    (p / Step(level)) % P_L2_SIZE
  }

  lemma {:induction false} PowerPositive(base: nat, exponent: nat)
    requires base >= 1
    ensures Power(base, exponent) >= 1
  {
    if exponent > 0 {
      PowerPositive(base, exponent - 1);
      MulGrows(base, Power(base, exponent - 1));
    }
  }

  lemma StepSplits(level: nat)
    ensures Step(level + 1) == P_L2_SIZE * Step(level)
    ensures Step(level + 1) > Step(level)
  {
    assert P_L2_SIZE * Step(level) >= 2 * Step(level);
  }

  /** First page below entry `i` of a node at `level` whose own first page is `lo`. */
  function EntryLo(lo: nat, level: nat, i: nat): nat {
    lo + i * Step(level)
  }

  lemma EntryLoNext(lo: nat, level: nat, i: nat)
    ensures EntryLo(lo, level, i + 1) == EntryLo(lo, level, i) + Step(level)
    ensures EntryLo(lo, level, 0) == lo
  {
  }

  lemma EntryLoMonotone(lo: nat, level: nat, i: nat, j: nat)
    requires i < j
    ensures EntryLo(lo, level, i) + Step(level) <= EntryLo(lo, level, j)
  {
    MulMonotone(i, j, Step(level));
  }

  lemma EntryLoEnd(lo: nat, level: nat)
    ensures EntryLo(lo, level, P_L2_SIZE) == lo + Step(level + 1)
  {
    StepSplits(level);
  }

  lemma EntryInside(lo: nat, level: nat, i: nat)
    requires i < P_L2_SIZE
    ensures lo <= EntryLo(lo, level, i)
    ensures EntryLo(lo, level, i) + Step(level) <= lo + Step(level + 1)
  {
    EntryLoEnd(lo, level);
    EntryLoMonotone(lo, level, i, P_L2_SIZE);
  }

  /** The digit of a page is the entry whose page range contains it. */
  lemma SlotIsEntry(lo: nat, level: nat, p: nat, i: nat)
    requires lo % Step(level + 1) == 0
    requires i < P_L2_SIZE
    requires EntryLo(lo, level, i) <= p < EntryLo(lo, level, i) + Step(level)
    ensures Slot(p, level) == i
  {
    StepSplits(level);
    var k := MultipleOf(lo, Step(level + 1));
    DigitOf(k, P_L2_SIZE, Step(level), i, p - EntryLo(lo, level, i));
  }

  lemma EntryOfSlot(lo: nat, level: nat, p: nat)
    requires lo % Step(level + 1) == 0
    requires lo <= p < lo + Step(level + 1)
    ensures EntryLo(lo, level, Slot(p, level)) <= p < EntryLo(lo, level, Slot(p, level)) + Step(level)
  {
    StepSplits(level);
    var s := Step(level);
    var i, r := (p - lo) / s, (p - lo) % s;
    assert p - lo == i * s + r;
    if i >= P_L2_SIZE {
      MulMonotone(P_L2_SIZE, i, s);
      assert false;
    }
    SlotIsEntry(lo, level, p, i);
  }

  /** Alignment and room decide between a leaf and descending one level. */
  lemma EntryAligned(lo: nat, level: nat, i: nat, index: nat)
    requires lo % Step(level + 1) == 0 && i < P_L2_SIZE
    requires EntryLo(lo, level, i) <= index < EntryLo(lo, level, i) + Step(level)
    ensures EntryLo(lo, level, i) % Step(level) == 0
    ensures index % Step(level) == 0 <==> index == EntryLo(lo, level, i)
  {
    StepSplits(level);
    var k := MultipleOf(lo, Step(level + 1));
    var r := index - EntryLo(lo, level, i);
    DigitOf(k, P_L2_SIZE, Step(level), i, 0);
    DivOfMultiple(k * P_L2_SIZE + i, Step(level), 0);
    DivOfMultiple(k * P_L2_SIZE + i, Step(level), r);
  }

  /** At most this many nodes are allocated for one range of pages. */
  const NODES_PER_SET: nat := 2 * P_L2_LEVELS - 1

  /** A full section table cannot exhaust the node numbers. */
  lemma NodeNumbersSuffice(sections: nat)
    requires sections < TARGET_PAGE_SIZE
    ensures NODES_PER_SET * sections + NODES_PER_SET == NODES_PER_SET * (sections + 1) <= PHYS_MAP_NODE_NIL
    ensures sections + 1 <= PHYS_MAP_NODE_NIL
  {
    MulMonotone(sections + 1, TARGET_PAGE_SIZE, NODES_PER_SET);
    MulMonotone(NODES_PER_SET, 2 * P_L2_LEVELS, TARGET_PAGE_SIZE);
    MulMonotone(1, NODES_PER_SET, sections + 1);
  }
}
