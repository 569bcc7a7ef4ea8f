/** Physical-address dispatch: building the page map in place and looking addresses up. */
module Dispatch {
  import opened Arith
  import opened Radix
  import opened PageMap
  import opened PageFill
  import opened PageCompact
  import opened Sections
  import opened Register
  import opened Cutting

  /** At most so many sections of the table come from one section added: three pieces and two containers. */
  const PIECES_PER_SECTION: nat := 5

  class AddressSpaceDispatch {
    var physMap: Entry
    var nodes: seq<Node>
    var nodesAlloc: nat
    var sections: seq<Section>
    var subs: seq<seq<nat>>
    ghost var added: seq<Section>
    ghost var path: seq<seq<nat>>

    function T(): Tree
      reads this
    {
      Tree(physMap, nodes)
    }

    /** The tree invariant while sections are being added. */
    ghost predicate Building()
      reads this
    {
      TreeOk(T(), path, |sections|) && Plain(T())
    }

    method Store(at: Place, e: Entry)
      requires PlaceOk(T(), at)
      modifies this`physMap, this`nodes
      ensures T() == Put(old(T()), at, e)
    {
      if at.Root? {
        physMap := e;
      } else {
        nodes := nodes[at.node := nodes[at.node][at.slot := e]];
      }
    }

    method NodeReserve(n: nat)
      modifies this`nodesAlloc
      ensures nodesAlloc >= |nodes| + n
      ensures nodesAlloc >= old(nodesAlloc)
    {
      if |nodes| + n > nodesAlloc {
        nodesAlloc := Max(nodesAlloc * 2, 16);
        nodesAlloc := Max(nodesAlloc, |nodes| + n);
      }
    }

    method NodeAlloc(ghost digits: seq<nat>) returns (ret: nat)
      requires |nodes| < nodesAlloc && |nodes| < PHYS_MAP_NODE_NIL && |path| == |nodes|
      modifies this`nodes, this`path
      ensures ret == old(|nodes|) < PHYS_MAP_NODE_NIL
      ensures |nodes| == ret + 1 && nodes[..ret] == old(nodes)
      ensures |nodes[ret]| == P_L2_SIZE && forall i :: 0 <= i < P_L2_SIZE ==> nodes[ret][i] == EMPTY
      ensures path == old(path) + [digits]
    {
      ret := |nodes|;
      var node: Node := [];
      for i := 0 to P_L2_SIZE
        invariant |node| == i && forall k :: 0 <= k < i ==> node[k] == EMPTY
      {
        node := node + [EMPTY];
      }
      nodes := nodes + [node];
      path := path + [digits];
    }

    /** A fresh node for `level`; on the last level its entries become unassigned leaves. */
    method NewNode(level: nat, ghost digits: seq<nat>) returns (ret: nat)
      requires |nodes| < nodesAlloc && |nodes| < PHYS_MAP_NODE_NIL && |path| == |nodes|
      modifies this`nodes, this`path
      ensures ret == old(|nodes|) < PHYS_MAP_NODE_NIL
      ensures |nodes| == ret + 1 && nodes == old(nodes) + [nodes[ret]] && Blank(nodes[ret], level)
      ensures path == old(path) + [digits]
    {
      ret := NodeAlloc(digits);
      if level == 0 {
        var i := 0;
        while i < P_L2_SIZE
          invariant 0 <= i <= P_L2_SIZE
          invariant |nodes| == ret + 1 && nodes[..ret] == old(nodes) && |nodes[ret]| == P_L2_SIZE
          invariant path == old(path) + [digits]
          invariant forall k :: 0 <= k < i ==> nodes[ret][k] == Entry(0, PHYS_SECTION_UNASSIGNED)
        {
          nodes := nodes[ret := nodes[ret][i := Entry(0, PHYS_SECTION_UNASSIGNED)]];
          i := i + 1;
        }
      }
    }

    /** Make sure the entry at `at` points to a node. */
    method EnsureNode(at: Place, level: nat) returns (nid: nat)
      requires Building() && PlaceOk(T(), at) && |Label(path, at)| + level + 1 == P_L2_LEVELS && Get(T(), at).skip == 1
      requires |nodes| < nodesAlloc && |nodes| < PHYS_MAP_NODE_NIL
      modifies this`physMap, this`nodes, this`path
      ensures Building() && PlaceOk(T(), at) && Get(T(), at) == Entry(1, nid)
      ensures nid < |nodes| && path[nid] == Label(path, at) && old(path) <= path
      ensures OnlyBelow(old(T()), T(), old(path), at)
      ensures |nodes| <= old(|nodes|) + 1
      ensures if old(Get(T(), at)).ptr == PHYS_MAP_NODE_NIL then Blank(nodes[nid], level)
              else nodes == old(nodes) && nid == old(Get(T(), at)).ptr
    {
      ghost var t0, path0, digits := T(), path, Label(path, at);
      GetOk(t0, path, |sections|, at);
      if Get(T(), at).ptr == PHYS_MAP_NODE_NIL {
        nid := NewNode(level, digits);
        ghost var t1 := T();
        GrowKeepsTree(t0, path0, |sections|, nodes[nid], digits, level);
        PutKeepsTree(t1, path, |sections|, at, Entry(1, nid));
        Store(at, Entry(1, nid));
      } else {
        nid := Get(T(), at).ptr;
      }
    }

    /** One turn of the slot loop: a whole free slot becomes a leaf, a partial one is descended. */
    method SetEntry(nid: nat, i: nat, index: nat, nb: nat, leaf: nat, level: nat, ghost lo: nat)
      returns (index': nat, nb': nat)
      requires Building() && nid < |nodes| && i < P_L2_SIZE && |path[nid]| + 1 + level == P_L2_LEVELS
      requires lo % Step(level + 1) == 0
      requires EntryLo(lo, level, i) <= index < EntryLo(lo, level, i) + Step(level)
      requires 0 < nb && 0 < leaf < |sections|
      requires |nodes| + SlotBudget(index, nb, level, EntryLo(lo, level, i)) <= Min(nodesAlloc, PHYS_MAP_NODE_NIL)
      requires Free(T(), In(nid, i), level, index, Min(index + nb, EntryLo(lo, level, i) + Step(level)))
      modifies this`physMap, this`nodes, this`path
      ensures Building() && old(path) <= path
      ensures OnlyBelow(old(T()), T(), old(path), In(nid, i))
      ensures |nodes| <= old(|nodes|) + SlotBudget(index, nb, level, EntryLo(lo, level, i))
      ensures index' == Min(index + nb, EntryLo(lo, level, i) + Step(level)) && nb' == nb - (index' - index)
      ensures SetBelow(old(T()), T(), In(nid, i), level, EntryLo(lo, level, i), index, index', leaf)
      decreases level, 0
    {
      ghost var t0 := T();
      EntryAligned(lo, level, i, index);
      assert NodeOk(nid, nodes, path, |sections|);
      if index % Step(level) == 0 && nb >= Step(level) {
        PutKeepsTree(t0, path, |sections|, In(nid, i), Entry(0, leaf));
        Store(In(nid, i), Entry(0, leaf));
        index', nb' := index + Step(level), nb - Step(level);
      } else {
        assert Step(0) == 1;
        index', nb' := SetLevel(In(nid, i), index, nb, leaf, level - 1, EntryLo(lo, level, i));
      }
    }

    /** The loop over the slots of node `nid`, the node of the entry at `at` in the tree t0. */
    method SetSlots(nid: nat, index: nat, nb: nat, leaf: nat, level: nat, ghost at: Place, ghost lo: nat,
                    ghost t0: Tree, ghost path0: seq<seq<nat>>)
      returns (index': nat, nb': nat)
      requires Building() && PlaceOk(T(), at) && Get(T(), at) == Entry(1, nid) && nid < |nodes|
      requires |path0| == |t0.nodes| && PlaceOk(t0, at) && OnlyBelow(t0, T(), path0, at)
      requires path0 <= path && path[nid] == Label(path0, at) && |path[nid]| + level + 1 == P_L2_LEVELS
      requires lo % Step(level + 1) == 0 && lo <= index < lo + Step(level + 1)
      requires 0 < nb && 0 < leaf < |sections|
      requires |nodes| <= |t0.nodes| + 1
      requires |t0.nodes| + Budget(index, nb, level, lo) <= Min(nodesAlloc, PHYS_MAP_NODE_NIL)
      requires Free(t0, at, level + 1, index, Reach(index, nb, level, lo))
      requires Filled(t0, T(), at, nid, level, lo, index, index, leaf)
      modifies this`physMap, this`nodes, this`path
      ensures Building() && PlaceOk(T(), at) && Get(T(), at) == Entry(1, nid) && old(path) <= path
      ensures OnlyBelow(t0, T(), path0, at)
      ensures |nodes| <= |t0.nodes| + Budget(index, nb, level, lo)
      ensures index' == Reach(index, nb, level, lo) && nb' == nb - (index' - index)
      ensures Filled(t0, T(), at, nid, level, lo, index, index', leaf)
      decreases level, 1
    {
      var i := Slot(index, level);
      index', nb' := index, nb;
      AtSlotStart(index, nb, level, lo);
      while nb' > 0 && i < P_L2_SIZE
        invariant AtSlot(index, nb, level, lo, i, index', nb')
        invariant |nodes| <= |t0.nodes| + Spent(index, nb, level, lo, index', nb')
        invariant Building() && PlaceOk(T(), at) && Get(T(), at) == Entry(1, nid)
        invariant nid < |nodes| && old(path) <= path
        invariant OnlyBelow(t0, T(), path0, at)
        invariant Filled(t0, T(), at, nid, level, lo, index, index', leaf)
        decreases P_L2_SIZE - i
      {
        ghost var t1, path1, index1 := T(), path, index';
        SpentGrows(index, nb, level, lo, i, index', nb');
        FilledFree(t0, t1, at, nid, level, lo, index, index', leaf, i, nb');
        AtSlotStep(index, nb, level, lo, i, index', nb');
        index', nb' := SetEntry(nid, i, index', nb', leaf, level, lo);
        SlotDone(t0, t1, T(), path0, path1, |sections|, at, nid, level, lo, index, index1, index', leaf, i);
        i := i + 1;
      }
    }

    /** `phys_page_set_level`: store `leaf` for the pages [index, index + nb) that lie below the
        entry at `at`, whose pages start at `lo`. */
    method SetLevel(at: Place, index: nat, nb: nat, leaf: nat, level: nat, ghost lo: nat)
      returns (index': nat, nb': nat)
      requires Building() && PlaceOk(T(), at) && |Label(path, at)| + level + 1 == P_L2_LEVELS
      requires lo % Step(level + 1) == 0 && lo <= index < lo + Step(level + 1)
      requires 0 < nb && 0 < leaf < |sections|
      requires |nodes| + Budget(index, nb, level, lo) <= Min(nodesAlloc, PHYS_MAP_NODE_NIL)
      requires Free(T(), at, level + 1, index, Reach(index, nb, level, lo))
      modifies this`physMap, this`nodes, this`path
      ensures Building() && PlaceOk(T(), at) && old(path) <= path
      ensures OnlyBelow(old(T()), T(), old(path), at)
      ensures |nodes| <= old(|nodes|) + Budget(index, nb, level, lo)
      ensures index' == Reach(index, nb, level, lo) && nb' == nb - (index' - index)
      ensures SetBelow(old(T()), T(), at, level + 1, lo, index, index', leaf)
      decreases level, 2
    {
      ghost var t0, path0 := T(), path;
      GetOk(t0, path, |sections|, at);
      FreeNotLeaf(t0, path, |sections|, at, level, index, Reach(index, nb, level, lo));
      var nid := EnsureNode(at, level);
      FilledStart(t0, T(), at, nid, level, lo, index, leaf);
      index', nb' := SetSlots(nid, index, nb, leaf, level, at, lo, t0, path0);
      FilledDone(t0, T(), at, nid, level, lo, index, index', leaf);
    }

    /** `phys_page_set`: the reservation covers every allocation below. */
    method PageSet(index: nat, nb: nat, leaf: nat)
      requires Building() && 0 < nb && index + nb <= Step(P_L2_LEVELS) && 0 < leaf < |sections|
      requires Free(T(), Root, P_L2_LEVELS, index, index + nb)
      requires |nodes| + NODES_PER_SET <= PHYS_MAP_NODE_NIL
      modifies this`physMap, this`nodes, this`path, this`nodesAlloc
      ensures Building()
      ensures |nodes| <= old(|nodes|) + NODES_PER_SET
      ensures SetBelow(old(T()), T(), Root, P_L2_LEVELS, 0, index, index + nb, leaf)
    {
      NodeReserve(3 * P_L2_LEVELS);
      var _, _ := SetLevel(Root, index, nb, leaf, P_L2_LEVELS - 1, 0);
    }

    /** `phys_page_compact` of the non-leaf entry at `at`. */
    method Compact(at: Place, ghost level: nat, ghost lo: nat)
      requires TreeOk(T(), path, |sections|) && PlaceOk(T(), at) && |Label(path, at)| + level + 1 == P_L2_LEVELS
      requires PlainBelow(T(), path, at) && Get(T(), at).skip > 0 && lo % Step(level + 1) == 0
      modifies this`physMap, this`nodes
      ensures TreeOk(T(), path, |sections|) && OnlyBelow(old(T()), T(), path, at)
      ensures Widened(old(T()), T(), at, level + 1, lo)
      ensures (Get(T(), at).ptr == PHYS_MAP_NODE_NIL) == (old(Get(T(), at)).ptr == PHYS_MAP_NODE_NIL)
      ensures |nodes| == old(|nodes|) && AllPacked(T(), at, level + 1)
      decreases level, 2
    {
      ghost var t0 := T();
      GetOk(t0, path, |sections|, at);
      if Get(T(), at).ptr == PHYS_MAP_NODE_NIL {
        return;
      }
      var nid := Get(T(), at).ptr;
      var validPtr, valid := CompactChildren(nid, at, level, lo);
      if valid != 1 {
        CountedTight(nodes, Get(T(), at), validPtr, valid);
        TightPacked(T(), path, |sections|, at, nid, level);
        return;
      }
      var child := nodes[nid][validPtr];
      if Get(T(), at).skip + child.skip >= 8 {
        CountedTight(nodes, Get(T(), at), validPtr, valid);
        TightPacked(T(), path, |sections|, at, nid, level);
        return;
      }
      RedirectedOk(T(), path, |sections|, at, nid, level, validPtr);
      RedirectPacked(T(), path, |sections|, at, nid, level, validPtr);
      RedirectWidens(T(), path, |sections|, at, nid, level, lo, validPtr);
      ghost var t1 := T();
      Store(at, Redirected(Get(T(), at), child));
      WidenedTrans(t0, t1, T(), at, level + 1, lo);
    }

    /** Compact child i of node `nid` if it is not a leaf. */
    method CompactChild(nid: nat, i: nat, ghost at: Place, ghost level: nat, ghost lo: nat, ghost t0: Tree)
      requires TreeOk(T(), path, |sections|) && Walkable(T(), at) && |Label(path, at)| + level + 1 == P_L2_LEVELS
      requires |t0.nodes| == |path| && PlaceOk(t0, at) && OnlyBelow(t0, T(), path, at)
      requires Get(T(), at) == Entry(1, nid) && nid < |nodes| && nid != PHYS_MAP_NODE_NIL
      requires path[nid] == Label(path, at)
      requires RestPlain(T(), path, nid, i) && i < P_L2_SIZE && nodes[nid][i].ptr != PHYS_MAP_NODE_NIL
      requires lo % Step(level + 1) == 0 && Widened(t0, T(), at, level + 1, lo)
      modifies this`physMap, this`nodes
      ensures TreeOk(T(), path, |sections|) && |nodes| == old(|nodes|)
      ensures PlaceOk(T(), at) && Get(T(), at) == Entry(1, nid)
      ensures OnlyBelow(t0, T(), path, at) && Widened(t0, T(), at, level + 1, lo)
      ensures RestPlain(T(), path, nid, i + 1)
      ensures nodes[nid][i].ptr != PHYS_MAP_NODE_NIL
      ensures forall j :: 0 <= j < P_L2_SIZE && j != i ==> nodes[nid][j] == old(nodes[nid][j])
      ensures old(ChildrenPacked(T(), nid, i, level)) ==> ChildrenPacked(T(), nid, i + 1, level)
      decreases level, 0
    {
      if nodes[nid][i].skip == 0 {
        PlainPacked(T(), path, |sections|, nid, i, level);
      } else {
        ghost var t1 := T();
        GetOk(t1, path, |sections|, In(nid, i));
        EntryAligned(lo, level, i, EntryLo(lo, level, i));
        Compact(In(nid, i), level - 1, EntryLo(lo, level, i));
        ChildDone(t0, t1, T(), path, |sections|, at, nid, i, level, lo);
        RestPlainStep(t1, T(), path, nid, i);
        if ChildrenPacked(t1, nid, i, level) {
          ChildrenStay(t1, T(), path, |sections|, nid, i, level);
        }
      }
    }

    /** The loop of `phys_page_compact`: compact every child that is not a leaf and count the
        entries in use. */
    method CompactChildren(nid: nat, ghost at: Place, ghost level: nat, ghost lo: nat)
      returns (validPtr: nat, valid: nat)
      requires TreeOk(T(), path, |sections|) && PlaceOk(T(), at) && |Label(path, at)| + level + 1 == P_L2_LEVELS
      requires PlainBelow(T(), path, at) && lo % Step(level + 1) == 0
      requires Get(T(), at) == Entry(1, nid) && nid < |nodes| && nid != PHYS_MAP_NODE_NIL
      modifies this`physMap, this`nodes
      ensures TreeOk(T(), path, |sections|) && OnlyBelow(old(T()), T(), path, at)
      ensures |nodes| == old(|nodes|) && PlaceOk(T(), at) && Get(T(), at) == Entry(1, nid)
      ensures Widened(old(T()), T(), at, level + 1, lo)
      ensures valid == 1 ==> OnlyChild(nodes[nid], validPtr, level)
      ensures Counted(nodes[nid], P_L2_SIZE, validPtr, valid) && ChildrenPacked(T(), nid, P_L2_SIZE, level)
      decreases level, 1
    {
      ghost var t0 := T();
      GetOk(t0, path, |sections|, at);
      AllPlain(t0, path, |sections|, at, nid);
      validPtr, valid := P_L2_SIZE, 0;
      var i := 0;
      while i < P_L2_SIZE
        invariant i <= P_L2_SIZE
        invariant TreeOk(T(), path, |sections|) && |nodes| == |t0.nodes| && OnlyBelow(t0, T(), path, at)
        invariant PlaceOk(T(), at) && Get(T(), at) == Entry(1, nid)
        invariant Widened(t0, T(), at, level + 1, lo)
        invariant RestPlain(T(), path, nid, i)
        invariant Counted(nodes[nid], i, validPtr, valid) && ChildrenPacked(T(), nid, i, level)
      {
        if nodes[nid][i].ptr != PHYS_MAP_NODE_NIL {
          ghost var node, validPtr0 := nodes[nid], validPtr;
          CompactChild(nid, i, at, level, lo, t0);
          CountedMore(node, nodes[nid], i, validPtr0, valid);
          validPtr := i;
          valid := valid + 1;
        } else {
          PlainPacked(T(), path, |sections|, nid, i, level);
          CountedMore(nodes[nid], nodes[nid], i, validPtr, valid);
        }
        i := i + 1;
      }
      if valid == 1 {
        CountedOnly(T(), path, |sections|, nid, level, validPtr);
      }
    }

    /** `phys_page_compact_all`. */
    method CompactAll()
      requires Building()
      modifies this`physMap, this`nodes
      ensures TreeOk(T(), path, |sections|)
      ensures Widened(old(T()), T(), Root, P_L2_LEVELS, 0)
      ensures AllPacked(T(), Root, P_L2_LEVELS)
    {
      GetOk(T(), path, |sections|, Root);
      if physMap.skip > 0 {
        Compact(Root, P_L2_LEVELS - 1, 0);
      }
    }

    /** The whole structure while sections are being added. */
    ghost predicate Ready()
      reads this
    {
      && Building() && MapOk(T(), sections, subs)
      && |sections| <= TARGET_PAGE_SIZE && |nodes| <= NODES_PER_SET * |sections|
    }

    /** `phys_section_add`; not ok is the failed assertion on a full table. */
    method SectionAdd(s: Section) returns (index: nat, ok: bool)
      requires TreeOk(T(), path, |sections|) && |sections| <= TARGET_PAGE_SIZE
      modifies this`sections
      ensures ok == (old(|sections|) < TARGET_PAGE_SIZE)
      ensures sections == if ok then old(sections) + [s] else old(sections)
      ensures index == old(|sections|) && TreeOk(T(), path, |sections|)
    {
      index := |sections|;
      ok := |sections| < TARGET_PAGE_SIZE;
      if ok {
        NodeNumbersSuffice(|sections|);
        LeavesGrow(T(), path, |sections|, |sections| + 1);
        sections := sections + [s];
      }
    }

    /** `subpage_register`. */
    method SubpageRegister(id: nat, start: nat, end: nat, section: nat) returns (ret: int)
      requires id < |subs| && |subs[id]| == TARGET_PAGE_SIZE
      modifies this`subs
      ensures ret == if start >= TARGET_PAGE_SIZE || end >= TARGET_PAGE_SIZE then -1 else 0
      ensures ret == -1 ==> subs == old(subs)
      ensures ret == 0 ==> SubFilled(old(subs), subs, id, start, end + 1, section)
    {
      if start >= TARGET_PAGE_SIZE || end >= TARGET_PAGE_SIZE {
        return -1;
      }
      var idx := start;
      while idx <= end
        invariant start <= idx && (start <= end + 1 ==> idx <= end + 1) && (start > end + 1 ==> idx == start)
        invariant SubFilled(old(subs), subs, id, start, idx, section)
      {
        var row: seq<nat> := subs[id][idx := section];
        subs := subs[id := row];
        idx := idx + 1;
      }
      return 0;
    }

    /** `subpage_init`: a container whose every byte is unassigned. */
    method SubpageInit() returns (id: nat)
      modifies this`subs
      ensures id == old(|subs|) && |subs| == id + 1 && old(subs) <= subs && EmptySub(subs, id)
    {
      id := |subs|;
      var zeros := seq(TARGET_PAGE_SIZE, _ => PHYS_SECTION_UNASSIGNED);
      subs := subs + [zeros];
      var _ := SubpageRegister(id, 0, TARGET_PAGE_SIZE - 1, PHYS_SECTION_UNASSIGNED);
    }

    /** Add the section s of unassigned whole pages; `subs0` are the containers without its own, if it is
        one. */
    method AddPages(s: Section, ghost subs0: seq<seq<nat>>) returns (ok: bool)
      requires Building() && TableOk(sections, subs0) && PagesOk(T(), sections) && SmallOk(T(), sections, subs0)
      requires 0 < |sections| <= TARGET_PAGE_SIZE && |nodes| <= NODES_PER_SET * |sections|
      requires SectionOk(s, subs) && Paged(s) && subs0 <= subs
      requires if s.mr.Subpage? then s.mr.id == |subs0| == |subs| - 1 && EmptySub(subs, s.mr.id) else subs == subs0
      requires 0 < PageOf(s.size) && PageOf(s.addr) + PageOf(s.size) <= Step(P_L2_LEVELS)
      requires forall p :: PageIn(s, p) ==> Page(T(), p) == PHYS_SECTION_UNASSIGNED
      modifies this`physMap, this`nodes, this`path, this`nodesAlloc, this`sections
      ensures !ok ==> |sections| == TARGET_PAGE_SIZE
      ensures ok ==> Building() && TableOk(sections, subs) && PagesOk(T(), sections) && SmallOk(T(), sections, subs)
      ensures sections == if ok then old(sections) + [s] else old(sections)
      ensures ok ==> |sections| <= TARGET_PAGE_SIZE && |nodes| <= NODES_PER_SET * |sections|
    {
      ghost var t0, sections0 := T(), sections;
      FreeRun(t0, s);
      var index: nat;
      index, ok := SectionAdd(s);
      if !ok {
        return;
      }
      NodeNumbersSuffice(|sections0|);
      PageSet(PageOf(s.addr), PageOf(s.size), index);
      PagedAdd(t0, T(), sections0, subs0, subs, s);
    }

    /** Give the unassigned page at `base` a sub-page container. */
    method NewContainer(base: nat) returns (id: nat, ok: bool)
      requires Ready() && OffsetIn(base) == 0 && base < ADDR_SPACE
      requires Page(T(), PageOf(base)) == PHYS_SECTION_UNASSIGNED
      modifies this`physMap, this`nodes, this`path, this`nodesAlloc, this`sections, this`subs
      ensures !ok ==> |sections| == TARGET_PAGE_SIZE
      ensures ok ==> Building() && TableOk(sections, subs) && PagesOk(T(), sections) && SmallOk(T(), sections, subs)
      ensures sections ==
        if ok then old(sections) + [Section(Subpage(id), base, TARGET_PAGE_SIZE, 0)] else old(sections)
      ensures ok ==> |sections| <= TARGET_PAGE_SIZE && |nodes| <= NODES_PER_SET * |sections|
    {
      ghost var subs0 := subs;
      ContainerPage(base);
      id := SubpageInit();
      ok := AddPages(Section(Subpage(id), base, TARGET_PAGE_SIZE, 0), subs0);
    }

    /** Register the small section s in container `id`, section c of the table. */
    method FillContainer(s: Section, id: nat, ghost c: nat) returns (ok: bool)
      requires Building() && TableOk(sections, subs) && PagesOk(T(), sections) && SmallOk(T(), sections, subs)
      requires |sections| <= TARGET_PAGE_SIZE && |nodes| <= NODES_PER_SET * |sections|
      requires 4 <= c < |sections| && sections[c].mr == Subpage(id) && c == Page(T(), PageOf(s.addr))
      requires s.mr.Device? && !Paged(s) && SectionOk(s, subs) && Fresh(sections, s)
      requires InhabitedExcept(sections, PageOf(s.addr))
      modifies this`sections, this`subs
      ensures !ok ==> |sections| == TARGET_PAGE_SIZE
      ensures ok ==> Ready() && sections == old(sections) + [s]
      ensures !ok ==> sections == old(sections)
    {
      ghost var sections0, subs0 := sections, subs;
      assert SectionOk(sections[c], subs);
      var start := OffsetIn(s.addr);
      var end := start + s.size - 1;
      var index: nat;
      index, ok := SectionAdd(s);
      if !ok {
        return;
      }
      var _ := SubpageRegister(id, start, end, index);
      SmallAdd(T(), sections0, subs0, subs, s, c);
      InhabitedAdd(sections0, s);
      NodeNumbersSuffice(|sections0|);
    }

    /** `register_subpage` of a section inside one page. */
    method RegisterSubpage(s: Section) returns (ok: bool)
      requires Ready() && s.mr.Device? && !Paged(s) && SectionOk(s, subs) && Fresh(sections, s)
      modifies this`physMap, this`nodes, this`path, this`nodesAlloc, this`sections, this`subs
      ensures !ok ==> |sections| == TARGET_PAGE_SIZE
      ensures ok ==> Ready() && Extended(old(sections), sections, s)
      ensures |sections| <= old(|sections|) + 2
    {
      ghost var sections0 := sections;
      var base := s.addr - OffsetIn(s.addr);
      BaseOf(s.addr);
      FreshSmallPage(T(), sections, subs, s);
      FindIsPage(T(), sections, subs, base);
      var existing := Find(T(), sections, base);
      assert existing == PHYS_SECTION_UNASSIGNED || sections[existing].mr.Subpage?;
      assert sections[0] == DUMMY_SECTIONS[0];
      var id: nat;
      ghost var c := existing;
      if !sections[existing].mr.Subpage? {
        id, ok := NewContainer(base);
        if !ok {
          return;
        }
        c := |sections0|;
        ContainerPage(base);
        InhabitedBut(sections0, sections[c]);
      } else {
        id := sections[existing].mr.id;
      }
      ok := FillContainer(s, id, c);
    }

    /** `register_multipage` of a run of whole pages. */
    method RegisterMultipage(s: Section) returns (ok: bool)
      requires Ready() && s.mr.Device? && Paged(s) && SectionOk(s, subs) && Fresh(sections, s)
      modifies this`physMap, this`nodes, this`path, this`nodesAlloc, this`sections
      ensures !ok ==> |sections| == TARGET_PAGE_SIZE
      ensures ok ==> Ready() && Extended(old(sections), sections, s)
      ensures |sections| <= old(|sections|) + 1
    {
      ghost var t0, sections0 := T(), sections;
      forall p | PageIn(s, p) ensures Page(t0, p) == PHYS_SECTION_UNASSIGNED {
        FreshPagesFree(t0, sections, subs, s, p);
      }
      PagesInSpace(s);
      PagedNotEmpty(s.size);
      ok := AddPages(s, subs);
      if ok {
        InhabitedAdd(sections0, s);
      }
    }

    /** What `mem_add` demands: a non-empty section of the address space, apart from all others. */
    ghost predicate CanAdd(s: Section)
      reads this
    {
      && s.mr.Device? && 0 < s.size && s.addr + s.size <= ADDR_SPACE
      && forall j :: 0 <= j < |added| ==> Disjoint(added[j], s)
    }

    /** The state between `mem_begin` and `mem_commit`. */
    ghost predicate Collecting()
      reads this
    {
      Ready() && View(sections, added) && PairwiseDisjoint(added)
    }

    /** One turn of the loop of `mem_add`: register the front of what remains. */
    method AddFront(remain: Section, ghost section: Section, ghost before: seq<Section>)
      returns (now: Section, ok: bool)
      requires Ready() && Fresh(before, section) && Cut(before, sections, section, remain.addr)
      requires section.mr.Device? && section.addr + section.size <= ADDR_SPACE
      requires SameTranslation(remain, section) && section.addr <= remain.addr && 0 < remain.size
      requires remain.addr + remain.size == section.addr + section.size && OffsetIn(remain.addr) == 0
      requires remain.addr == HeadEnd(section) || remain.addr == BodyEnd(section)
      modifies this`physMap, this`nodes, this`path, this`nodesAlloc, this`sections, this`subs
      ensures !ok ==> |sections| == TARGET_PAGE_SIZE
      ensures ok ==> Ready() && Cut(before, sections, section, remain.addr + now.size)
      ensures ok ==> 0 < now.size <= remain.size
      ensures ok && now.size != remain.size ==>
        OffsetIn(remain.addr + now.size) == 0 && remain.addr + now.size == BodyEnd(section)
      ensures |sections| <= old(|sections|) + if remain.addr == HeadEnd(section) < BodyEnd(section) then 1 else 2
    {
      ghost var sections1 := sections;
      now := remain;
      if remain.size < TARGET_PAGE_SIZE {
        SmallSize(now.size);
        RestFresh(before, sections, section, now.addr, now);
        ok := RegisterSubpage(now);
      } else if OffsetIn(remain.addr) != 0 {
        assert false;
      } else {
        WholePages(now.addr, now.size);
        now := now.(size := now.size - OffsetIn(now.size));
        RestFresh(before, sections, section, now.addr, now);
        ok := RegisterMultipage(now);
      }
      if ok {
        CutStep(before, sections1, sections, section, now);
      }
    }

    /** The part of a section before its first page boundary, if it does not begin at one. */
    method AddHead(section: Section) returns (now: Section, ok: bool)
      requires Collecting() && CanAdd(section)
      modifies this
      ensures !ok ==> |sections| == TARGET_PAGE_SIZE
      ensures ok ==> Ready() && added == old(added) && now.size <= section.size
      ensures ok ==> Cut(old(sections), sections, section, section.addr + now.size)
      ensures ok && section.size != now.size ==>
        OffsetIn(section.addr + now.size) == 0 && section.addr + now.size == HeadEnd(section)
      ensures |sections| <= old(|sections|) + 2
    {
      ghost var sections0 := sections;
      ViewFresh(sections, added, section);
      now, ok := section.(size := 0), true;
      if OffsetIn(section.addr) != 0 {
        var left := TARGET_PAGE_SIZE - OffsetIn(section.addr);
        now := section.(size := Min(left, section.size));
        SmallSize(now.size);
        RestFresh(sections0, sections, section, section.addr, now);
        ok := RegisterSubpage(now);
        if !ok {
          return;
        }
        CutStep(sections0, sections0, sections, section, now);
        NextPage(section.addr);
      }
    }

    /** `mem_add`: cut the section at page boundaries and register the pieces. Not ok is the
        failed assertion on a full section table. */
    method MemAdd(section: Section) returns (ok: bool)
      requires Collecting() && CanAdd(section)
      modifies this
      ensures !ok ==> |sections| == TARGET_PAGE_SIZE
      ensures ok ==> Collecting() && added == old(added) + [section]
      ensures |sections| <= old(|sections|) + PIECES_PER_SECTION
    {
      ghost var sections0 := sections;
      var remain := section;
      var now;
      now, ok := AddHead(section);
      if !ok {
        return;
      }
      while remain.size != now.size
        invariant Ready() && added == old(added)
        invariant now.size <= remain.size && SameTranslation(remain, section)
        invariant section.addr <= remain.addr && remain.addr + remain.size == section.addr + section.size
        invariant Cut(sections0, sections, section, remain.addr + now.size)
        invariant remain.size != now.size ==> OffsetIn(remain.addr + now.size) == 0
        invariant remain.size != now.size ==>
          remain.addr + now.size == HeadEnd(section) || remain.addr + now.size == BodyEnd(section)
        invariant |sections| <= |sections0| + PIECES_PER_SECTION
        invariant remain.size != now.size ==>
          |sections| <= |sections0| + if remain.addr + now.size == HeadEnd(section) then 2 else 3
        decreases remain.size - now.size
      {
        remain := remain.(size := remain.size - now.size, addr := remain.addr + now.size,
                          regionOffset := remain.regionOffset + now.size);
        now, ok := AddFront(remain, section, sections0);
        if !ok {
          return;
        }
      }
      ViewAdd(sections0, sections, added, section);
      added := added + [section];
    }

    /** `mem_begin`: four dummy sections and an empty map. */
    constructor ()
      ensures Collecting() && added == [] && sections == DUMMY_SECTIONS
    {
      physMap, nodes, nodesAlloc, path := EMPTY, [], 0, [];
      sections, subs, added := DUMMY_SECTIONS, [], [];
      new;
      NodeNumbersSuffice(4);
    }

    /** The state after `mem_commit`: every lookup is exact for the sections that were added. */
    ghost predicate Committed()
      reads this
    {
      && TreeOk(T(), path, |sections|)
      && View(sections, added) && PairwiseDisjoint(added)
      && forall a :: 0 <= a < ADDR_SPACE ==> ExactAt(T(), sections, subs, a)
    }

    /** `mem_commit`: compaction keeps every lookup. */
    method Commit()
      requires Collecting()
      modifies this`physMap, this`nodes
      ensures Committed()
      ensures forall a :: 0 <= a < ADDR_SPACE ==> Find(T(), sections, a) == old(Find(T(), sections, a))
      ensures AllPacked(T(), Root, P_L2_LEVELS)
    {
      ghost var t0 := T();
      CompactAll();
      forall a | 0 <= a < ADDR_SPACE
        ensures ExactAt(T(), sections, subs, a) && Find(T(), sections, a) == Find(t0, sections, a)
      {
        MapExact(t0, sections, subs, a);
        CompactionInvisible(t0, T(), sections, subs, a);
      }
    }

    /** `phys_page_find`: the loop down the levels, then the range test. */
    method PageFind(a: nat) returns (k: nat)
      requires TreeOk(T(), path, |sections|) && a < ADDR_SPACE
      ensures k == Find(T(), sections, a)
    {
      var index := PageOf(a);
      var lp, i := physMap, P_L2_LEVELS;
      ghost var digits: seq<nat> := [];
      GetOk(T(), path, |sections|, Root);
      while lp.skip > 0 && i >= lp.skip
        invariant 0 <= i && |digits| + i == P_L2_LEVELS
        invariant EntryOk(lp, digits, nodes, path, |sections|) && InRange(lp, nodes)
        invariant Walk(nodes, lp, i, index) == Walk(nodes, physMap, P_L2_LEVELS, index)
        decreases i
      {
        i := i - lp.skip;
        if lp.ptr == PHYS_MAP_NODE_NIL {
          return PHYS_SECTION_UNASSIGNED;
        }
        var slot := Slot(index, i);
        digits := path[lp.ptr] + [slot];
        GetOk(T(), path, |sections|, In(lp.ptr, slot));
        lp := nodes[lp.ptr][slot];
      }
      if Covers(sections[lp.ptr], a) {
        k := lp.ptr;
      } else {
        k := PHYS_SECTION_UNASSIGNED;
      }
    }

    /** `address_space_lookup_region` with sub-page resolution, and the offset and length computed by
        `address_space_translate_internal`; `sizes` are the sizes of the memory regions. The section is the
        piece that holds the address. The length is limited by the offset in that piece instead of the
        offset in the region, so it ends inside the region exactly if the address is in the first piece of
        the region's front, or if the access fits anyway. */
    method Translate(a: nat, plen: nat, sizes: Region -> nat) returns (section: Section, xlat: int, len: int)
      requires Committed() && a < ADDR_SPACE
      ensures Answers(section, added, a)
      ensures len <= plen && a + len <= section.addr + sizes(section.mr)
      ensures len == plen || a + len == section.addr + sizes(section.mr)
      ensures forall j :: 0 <= j < |added| && Contains(added[j], a) ==>
        var s, size := added[j], sizes(added[j].mr);
        && section.mr == s.mr && xlat == a - s.addr + s.regionOffset
        && (xlat + len <= size <==>
              || (s.regionOffset == 0 && a < FrontEnd(s))
              || a - s.addr + s.regionOffset + plen <= size)
      ensures (forall j :: 0 <= j < |added| ==> !Contains(added[j], a)) ==>
        && section.mr == Unassigned && xlat == a
        && len <= plen && a + len <= sizes(Unassigned) && (len == plen || a + len == sizes(Unassigned))
    {
      assert ExactAt(T(), sections, subs, a);
      var k := PageFind(a);
      ExactAnswers(T(), sections, subs, added, a);
      section := sections[k];
      if section.mr.Subpage? {
        k := subs[section.mr.id][OffsetIn(a)];
        section := sections[k];
      }
      xlat := a - section.addr + section.regionOffset;
      var diff := sizes(section.mr) - (a - section.addr);
      len := if diff < plen then diff else plen;
      forall j | 0 <= j < |added| && Contains(added[j], a)
        ensures section.regionOffset == 0 <==> added[j].regionOffset == 0 && a < FrontEnd(added[j])
      {
        FrontPiece(added[j], a);
      }
    }
  }

  /** A whole update of the memory map: begin, add every section, commit. */
  method Rebuild(regions: seq<Section>) returns (d: AddressSpaceDispatch, ok: bool)
    requires PairwiseDisjoint(regions)
    requires forall j :: 0 <= j < |regions| ==>
      regions[j].mr.Device? && 0 < regions[j].size && regions[j].addr + regions[j].size <= ADDR_SPACE
    ensures fresh(d)
    ensures ok ==> d.Committed() && d.added == regions
    ensures !ok ==> |d.sections| == TARGET_PAGE_SIZE
    ensures |DUMMY_SECTIONS| + PIECES_PER_SECTION * |regions| < TARGET_PAGE_SIZE ==> ok
  {
    d := new AddressSpaceDispatch();
    ok := true;
    var i := 0;
    while i < |regions|
      invariant i <= |regions| && ok && d.Collecting() && d.added == regions[..i] && fresh(d)
      invariant |d.sections| <= |DUMMY_SECTIONS| + PIECES_PER_SECTION * i
    {
      ok := d.MemAdd(regions[i]);
      if !ok {
        return;
      }
      i := i + 1;
    }
    d.Commit();
  }

  /** An access that leaves its region: the section starts inside its first page and ends with the second,
      and the access starts with the second, which is a piece of its own. */
  method Overrun() returns (section: Section, xlat: int, len: int)
    requires 2 <= SPACE_PAGES && |DUMMY_SECTIONS| + PIECES_PER_SECTION < TARGET_PAGE_SIZE
    ensures section.mr == Device(0) && 0 <= xlat < 2 * TARGET_PAGE_SIZE - 1 < xlat + len
  {
    var size := 2 * TARGET_PAGE_SIZE - 1;
    var region := Section(Device(0), 1, size, 0);
    MulMonotone(2, SPACE_PAGES, TARGET_PAGE_SIZE);
    FrontOfFirstPage(region);
    var d, ok := Rebuild([region]);
    assert Contains(d.added[0], TARGET_PAGE_SIZE);
    section, xlat, len := d.Translate(TARGET_PAGE_SIZE, TARGET_PAGE_SIZE + 1, _ => size);
  }
}
