/** Setting a range of pages: how many nodes it can need, and what the loop over the slots of
    one node has achieved at each turn. */
module PageFill {
  import opened Radix
  import opened PageMap

  function Min(a: nat, b: nat): nat { if a <= b then a else b }
  function Max(a: nat, b: nat): nat { if a >= b then a else b }

  /** Nodes that setting pages [index, index + nb) below one entry can allocate: one per level
      when the range touches an end of the entry's pages, else two per level below the first. */
  function Budget(index: nat, nb: nat, level: nat, lo: nat): nat {
    if index == lo || index + nb >= lo + Step(level + 1) then level + 1 else 2 * level + 1
  }

  /** End of the pages of [index, index + nb) below an entry of height level + 1. */
  function Reach(index: nat, nb: nat, level: nat, lo: nat): nat {
    Min(index + nb, lo + Step(level + 1))
  }

  /** Nodes needed below one slot of a node at `level`: none when the slot becomes a leaf. */
  function SlotBudget(index: nat, nb: nat, level: nat, lo: nat): nat {
    if level == 0 || (index == lo && nb >= Step(level)) then 0 else Budget(index, nb, level - 1, lo)
  }

  /** Nodes allocated when the loop over the slots stands at index'. */
  function Spent(index: nat, nb: nat, level: nat, lo: nat, index': nat, nb': nat): nat {
    if index' == index then 1
    else if nb' == 0 || index' == lo + Step(level + 1) then Budget(index, nb, level, lo)
    else if index == lo then 1
    else 1 + level
  }

  lemma SpentGrows(index: nat, nb: nat, level: nat, lo: nat, i: nat, at: nat, left: nat)
    requires lo % Step(level + 1) == 0 && lo <= index < lo + Step(level + 1)
    requires i < P_L2_SIZE && 0 < left
    requires EntryLo(lo, level, i) <= at < EntryLo(lo, level, i) + Step(level)
    requires index <= at && at + left == index + nb
    requires at != index ==> at == EntryLo(lo, level, i)
    ensures var at' := Min(at + left, EntryLo(lo, level, i) + Step(level));
      Spent(index, nb, level, lo, at, left) + SlotBudget(at, left, level, EntryLo(lo, level, i))
        <= Spent(index, nb, level, lo, at', left - (at' - at)) <= Budget(index, nb, level, lo)
  {
    EntryLoNext(lo, level, i);
    EntryLoEnd(lo, level);
    if i + 1 < P_L2_SIZE {
      EntryLoMonotone(lo, level, i + 1, P_L2_SIZE);
    }
    if i > 0 {
      EntryLoMonotone(lo, level, 0, i);
    }
    assert Step(0) == 1;
  }

  /** Pages [from, to) below the entry at `at` are all unassigned. */
  ghost predicate Free(t: Tree, at: Place, height: nat, from: nat, to: nat) {
    && Closed(t.nodes) && PlaceOk(t, at) && InRange(Get(t, at), t.nodes)
    && forall p :: from <= p < to ==> Below(t, at, height, p) == PHYS_SECTION_UNASSIGNED
  }

  /** A free page rules out an existing leaf above the last level, which setting would not split. */
  lemma FreeNotLeaf(t: Tree, path: seq<seq<nat>>, leaves: nat, at: Place, level: nat, from: nat, to: nat)
    requires TreeOk(t, path, leaves) && Plain(t) && PlaceOk(t, at)
    requires |Label(path, at)| + level + 1 == P_L2_LEVELS
    requires Free(t, at, level + 1, from, to) && from < to
    ensures Get(t, at).skip == 1
  {
    GetOk(t, path, leaves, at);
    assert Below(t, at, level + 1, from) == PHYS_SECTION_UNASSIGNED;
  }

  /** The walks through node `nid` after the pages [index, index') below it were set to `leaf`. */
  ghost predicate Filled(t0: Tree, t: Tree, at: Place, nid: nat, level: nat, lo: nat,
                         index: nat, index': nat, leaf: nat)
  {
    && Closed(t0.nodes) && PlaceOk(t0, at) && InRange(Get(t0, at), t0.nodes)
    && Closed(t.nodes) && nid < |t.nodes|
    && forall p :: lo <= p < lo + Step(level + 1) ==>
         Walk(t.nodes, t.nodes[nid][Slot(p, level)], level, p)
           == if index <= p < index' then leaf else Below(t0, at, level + 1, p)
  }

  lemma FilledFree(t0: Tree, t: Tree, at: Place, nid: nat, level: nat, lo: nat,
                   index: nat, index': nat, leaf: nat, i: nat, nb': nat)
    requires Filled(t0, t, at, nid, level, lo, index, index', leaf)
    requires lo % Step(level + 1) == 0 && i < P_L2_SIZE
    requires index <= index' && EntryLo(lo, level, i) <= index' < EntryLo(lo, level, i) + Step(level)
    requires Free(t0, at, level + 1, index, Min(index' + nb', lo + Step(level + 1)))
    ensures Free(t, In(nid, i), level, index', Min(index' + nb', EntryLo(lo, level, i) + Step(level)))
  {
    EntryInside(lo, level, i);
    forall p | index' <= p < Min(index' + nb', EntryLo(lo, level, i) + Step(level))
      ensures Below(t, In(nid, i), level, p) == PHYS_SECTION_UNASSIGNED
    {
      SlotIsEntry(lo, level, p, i);
      assert Below(t0, at, level + 1, p) == PHYS_SECTION_UNASSIGNED;
    }
  }

  lemma FilledStep(t0: Tree, t1: Tree, t2: Tree, at: Place, nid: nat, level: nat, lo: nat,
                   index: nat, index1: nat, index2: nat, leaf: nat, i: nat)
    requires Filled(t0, t1, at, nid, level, lo, index, index1, leaf)
    requires Closed(t2.nodes) && nid < |t2.nodes|
    requires lo % Step(level + 1) == 0 && i < P_L2_SIZE
    requires index <= index1 <= index2 <= EntryLo(lo, level, i) + Step(level)
    requires EntryLo(lo, level, i) <= index1
    requires forall p: nat :: Slot(p, level) != i ==>
      Walk(t2.nodes, t2.nodes[nid][Slot(p, level)], level, p) == Walk(t1.nodes, t1.nodes[nid][Slot(p, level)], level, p)
    requires forall p :: EntryLo(lo, level, i) <= p < EntryLo(lo, level, i) + Step(level) ==>
      Walk(t2.nodes, t2.nodes[nid][i], level, p)
        == if index1 <= p < index2 then leaf else Walk(t1.nodes, t1.nodes[nid][i], level, p)
    ensures Filled(t0, t2, at, nid, level, lo, index, index2, leaf)
  {
    forall p | lo <= p < lo + Step(level + 1)
      ensures Walk(t2.nodes, t2.nodes[nid][Slot(p, level)], level, p)
           == if index <= p < index2 then leaf else Below(t0, at, level + 1, p)
    {
      EntryOfSlot(lo, level, p);
      if Slot(p, level) != i && EntryLo(lo, level, i) <= p < EntryLo(lo, level, i) + Step(level) {
        SlotIsEntry(lo, level, p, i);
      }
    }
  }

  /** After an update below `at`: its pages [index, index') map to `leaf`, the others as before. */
  ghost predicate SetBelow(t0: Tree, t: Tree, at: Place, height: nat, lo: nat, index: nat, index': nat, leaf: nat) {
    && Closed(t0.nodes) && PlaceOk(t0, at) && InRange(Get(t0, at), t0.nodes)
    && Closed(t.nodes) && PlaceOk(t, at) && InRange(Get(t, at), t.nodes)
    && forall p :: lo <= p < lo + Step(height) ==>
         Below(t, at, height, p) == if index <= p < index' then leaf else Below(t0, at, height, p)
  }

  /** The loop over the slots of node `nid` standing at slot i and page index'. */
  ghost predicate AtSlot(index: nat, nb: nat, level: nat, lo: nat, i: nat, index': nat, nb': nat) {
    && i <= P_L2_SIZE && index <= index' && index' + nb' == index + nb
    && lo <= index < lo + Step(level + 1) && lo % Step(level + 1) == 0
    && index' <= lo + Step(level + 1)
    && (i == P_L2_SIZE && nb' > 0 ==> index' == lo + Step(level + 1))
    && (nb' > 0 && i < P_L2_SIZE ==> EntryLo(lo, level, i) <= index' < EntryLo(lo, level, i) + Step(level))
    && (index' != index && nb' > 0 ==> index' == EntryLo(lo, level, i))
  }

  lemma AtSlotStart(index: nat, nb: nat, level: nat, lo: nat)
    requires lo <= index < lo + Step(level + 1) && lo % Step(level + 1) == 0
    ensures AtSlot(index, nb, level, lo, Slot(index, level), index, nb)
  {
    EntryOfSlot(lo, level, index);
  }

  lemma AtSlotStep(index: nat, nb: nat, level: nat, lo: nat, i: nat, index': nat, nb': nat)
    requires AtSlot(index, nb, level, lo, i, index', nb') && nb' > 0 && i < P_L2_SIZE
    ensures var next := Min(index' + nb', EntryLo(lo, level, i) + Step(level));
      AtSlot(index, nb, level, lo, i + 1, next, nb' - (next - index')) && next > index'
  {
    EntryLoNext(lo, level, i);
    EntryLoEnd(lo, level);
    if i + 1 < P_L2_SIZE {
      EntryLoMonotone(lo, level, i + 1, P_L2_SIZE);
    }
  }

  /** Before the first slot is visited node `nid` answers as the entry did. */
  lemma FilledStart(t0: Tree, t: Tree, at: Place, nid: nat, level: nat, lo: nat, index: nat, leaf: nat)
    requires Closed(t0.nodes) && PlaceOk(t0, at) && InRange(Get(t0, at), t0.nodes) && Get(t0, at).skip == 1
    requires Closed(t.nodes) && nid < |t.nodes|
    requires if Get(t0, at).ptr == PHYS_MAP_NODE_NIL then Blank(t.nodes[nid], level)
             else t.nodes == t0.nodes && nid == Get(t0, at).ptr
    ensures Filled(t0, t, at, nid, level, lo, index, index, leaf)
  {
  }

  lemma FilledDone(t0: Tree, t: Tree, at: Place, nid: nat, level: nat, lo: nat, index: nat, index': nat, leaf: nat)
    requires Filled(t0, t, at, nid, level, lo, index, index', leaf)
    requires PlaceOk(t, at) && Get(t, at) == Entry(1, nid) && nid != PHYS_MAP_NODE_NIL
    ensures SetBelow(t0, t, at, level + 1, lo, index, index', leaf)
  {
    var height := level + 1;
    forall p | lo <= p < lo + Step(height)
      ensures Below(t, at, height, p) == if index <= p < index' then leaf else Below(t0, at, height, p)
    {
      assert Below(t, at, height, p) == Walk(t.nodes, t.nodes[nid][Slot(p, level)], level, p);
    }
  }

  /** One slot of `nid` was set, nothing else changed: the loop's view of the node moves on. */
  lemma SlotDone(t0: Tree, t1: Tree, t2: Tree, path0: seq<seq<nat>>, path1: seq<seq<nat>>, leaves: nat, at: Place,
                 nid: nat, level: nat, lo: nat, index: nat, index1: nat, index2: nat, leaf: nat, i: nat)
    requires |path0| == |t0.nodes| && PlaceOk(t0, at) && OnlyBelow(t0, t1, path0, at)
    requires TreeOk(t1, path1, leaves) && Closed(t2.nodes) && path0 <= path1
    requires nid < |t1.nodes| && path1[nid] == Label(path0, at)
    requires |path1[nid]| + 1 + level == P_L2_LEVELS && i < P_L2_SIZE && PlaceOk(t1, In(nid, i))
    requires OnlyBelow(t1, t2, path1, In(nid, i))
    requires Filled(t0, t1, at, nid, level, lo, index, index1, leaf)
    requires lo % Step(level + 1) == 0
    requires index <= index1 <= index2 <= EntryLo(lo, level, i) + Step(level) && EntryLo(lo, level, i) <= index1
    requires SetBelow(t1, t2, In(nid, i), level, EntryLo(lo, level, i), index1, index2, leaf)
    ensures OnlyBelow(t0, t2, path0, at) && Filled(t0, t2, at, nid, level, lo, index, index2, leaf)
    ensures PlaceOk(t1, at) ==> PlaceOk(t2, at) && Get(t2, at) == Get(t1, at)
  {
    OnlyBelowTrans(t0, t1, t2, path0, path1, at, nid, i);
    OtherSlots(t1, t2, path1, leaves, nid, i, level);
    forall p | EntryLo(lo, level, i) <= p < EntryLo(lo, level, i) + Step(level)
      ensures Walk(t2.nodes, t2.nodes[nid][i], level, p)
        == if index1 <= p < index2 then leaf else Walk(t1.nodes, t1.nodes[nid][i], level, p)
    {
      assert Below(t2, In(nid, i), level, p) == if index1 <= p < index2 then leaf else Below(t1, In(nid, i), level, p);
    }
    FilledStep(t0, t1, t2, at, nid, level, lo, index, index1, index2, leaf, i);
  }
}
