/** The multi-level page map as a value: a pool of nodes addressed by number, the walk that
    `phys_page_find` makes through it, and what a well-formed pool is.

    `path[n]` is a ghost label: the digits that lead from the root to node n. Two entries
    of different label never reach a common node, which is the frame argument of every
    in-place update. */
module PageMap {
  import opened Radix

  /** `skip` levels to the next node, 0 for a leaf; `ptr` a section number or a node number. */
  datatype Entry = Entry(skip: nat, ptr: nat)

  type Node = seq<Entry>

  /** Where an entry is stored: the root entry, or a slot of a node. */
  datatype Place = Root | In(node: nat, slot: nat)

  const PHYS_SECTION_UNASSIGNED: nat := 0
  const EMPTY: Entry := Entry(1, PHYS_MAP_NODE_NIL)

  predicate InRange(e: Entry, nodes: seq<Node>) {
    e.skip > 0 && e.ptr != PHYS_MAP_NODE_NIL ==> e.ptr < |nodes|
  }

  predicate Closed(nodes: seq<Node>) {
    forall n :: 0 <= n < |nodes| ==>
      |nodes[n]| == P_L2_SIZE && forall i :: 0 <= i < P_L2_SIZE ==> InRange(nodes[n][i], nodes)
  }

  /** The section number the walk ends with, starting at entry `e` with `i` levels to go. */
  function Walk(nodes: seq<Node>, e: Entry, i: nat, p: nat): nat
    requires Closed(nodes) && InRange(e, nodes)
    decreases i
  {
    if e.skip == 0 || i < e.skip then e.ptr
    else if e.ptr == PHYS_MAP_NODE_NIL then PHYS_SECTION_UNASSIGNED
    else Walk(nodes, nodes[e.ptr][Slot(p, i - e.skip)], i - e.skip, p)
  }

  ghost predicate EntryOk(e: Entry, at: seq<nat>, nodes: seq<Node>, path: seq<seq<nat>>, leaves: nat) {
    if e.skip == 0 then
      |at| <= P_L2_LEVELS && e.ptr < leaves && (|at| < P_L2_LEVELS ==> e.ptr != PHYS_SECTION_UNASSIGNED)
    else
      && |at| + e.skip <= P_L2_LEVELS
      && (e.ptr != PHYS_MAP_NODE_NIL ==>
            && e.ptr < |nodes| == |path|
            && |path[e.ptr]| == |at| + e.skip - 1
            && at <= path[e.ptr])
  }

  ghost predicate NodeOk(n: nat, nodes: seq<Node>, path: seq<seq<nat>>, leaves: nat)
    requires n < |nodes| == |path|
  {
    && |nodes[n]| == P_L2_SIZE
    && |path[n]| < P_L2_LEVELS
    && forall i :: 0 <= i < P_L2_SIZE ==> EntryOk(nodes[n][i], path[n] + [i], nodes, path, leaves)
  }

  ghost predicate PoolOk(nodes: seq<Node>, path: seq<seq<nat>>, leaves: nat) {
    && |nodes| == |path|
    && Closed(nodes)
    && leaves <= PHYS_MAP_NODE_NIL
    && forall n :: 0 <= n < |nodes| ==> NodeOk(n, nodes, path, leaves)
  }

  /** The walk below `at` reads only nodes whose label extends `at`. */
  lemma {:induction false} WalkFrame(nodes: seq<Node>, path: seq<seq<nat>>, leaves: nat,
                                     nodes': seq<Node>, e: Entry, at: seq<nat>, i: nat, p: nat)
    requires PoolOk(nodes, path, leaves) && EntryOk(e, at, nodes, path, leaves)
    requires Closed(nodes') && |nodes| <= |nodes'|
    requires |at| + i == P_L2_LEVELS
    requires forall n :: 0 <= n < |nodes| && at <= path[n] ==> nodes'[n] == nodes[n]
    ensures InRange(e, nodes')
    ensures Walk(nodes', e, i, p) == Walk(nodes, e, i, p)
    decreases i
  {
    if e.skip != 0 && e.ptr != PHYS_MAP_NODE_NIL {
      assert NodeOk(e.ptr, nodes, path, leaves);
      var j := Slot(p, i - e.skip);
      var at' := path[e.ptr] + [j];
      assert at <= at';
      WalkFrame(nodes, path, leaves, nodes', nodes[e.ptr][j], at', i - e.skip, p);
    }
  }

  /** An update below slot i of a node leaves the walks through its other slots alone. */
  lemma SiblingFrame(nodes: seq<Node>, path: seq<seq<nat>>, leaves: nat, nodes': seq<Node>,
                     nid: nat, i: nat, j: nat, level: nat, p: nat)
    requires PoolOk(nodes, path, leaves) && Closed(nodes') && |nodes| <= |nodes'|
    requires nid < |nodes| && i < P_L2_SIZE && j < P_L2_SIZE && i != j
    requires |path[nid]| + 1 + level == P_L2_LEVELS
    requires forall n :: 0 <= n < |nodes| && n != nid && !(path[nid] + [i] <= path[n]) ==> nodes'[n] == nodes[n]
    requires nodes'[nid][j] == nodes[nid][j]
    ensures Walk(nodes', nodes'[nid][j], level, p) == Walk(nodes, nodes[nid][j], level, p)
  {
    assert NodeOk(nid, nodes, path, leaves);
    var at := path[nid] + [j];
    forall n | 0 <= n < |nodes| && at <= path[n] ensures nodes'[n] == nodes[n] {
      assert path[n][|path[nid]|] == j;
    }
    WalkFrame(nodes, path, leaves, nodes', nodes[nid][j], at, level, p);
  }

  /** Storing a well-formed entry keeps the pool well formed. */
  lemma PutKeepsPool(nodes: seq<Node>, path: seq<seq<nat>>, leaves: nat, nid: nat, i: nat, e: Entry)
    requires PoolOk(nodes, path, leaves) && nid < |nodes| && i < P_L2_SIZE
    requires EntryOk(e, path[nid] + [i], nodes, path, leaves)
    ensures PoolOk(nodes[nid := nodes[nid][i := e]], path, leaves)
  {
    var nodes' := nodes[nid := nodes[nid][i := e]];
    forall n | 0 <= n < |nodes'| ensures NodeOk(n, nodes', path, leaves) {
      assert NodeOk(n, nodes, path, leaves);
      forall k | 0 <= k < P_L2_SIZE ensures EntryOk(nodes'[n][k], path[n] + [k], nodes', path, leaves) {
        assert EntryOk(nodes[n][k], path[n] + [k], nodes, path, leaves);
      }
    }
  }

  /** A node as allocated at `level`: no children, or unassigned leaves on the last level. */
  predicate Blank(node: Node, level: nat) {
    && |node| == P_L2_SIZE
    && forall i :: 0 <= i < P_L2_SIZE ==>
         node[i] == if level == 0 then Entry(0, PHYS_SECTION_UNASSIGNED) else EMPTY
  }

  lemma GrowKeepsPool(nodes: seq<Node>, path: seq<seq<nat>>, leaves: nat, node: Node, at: seq<nat>, level: nat)
    requires PoolOk(nodes, path, leaves) && 0 < leaves
    requires Blank(node, level) && |at| + 1 + level == P_L2_LEVELS
    ensures PoolOk(nodes + [node], path + [at], leaves)
  {
    var nodes', path' := nodes + [node], path + [at];
    forall n | 0 <= n < |nodes'| ensures NodeOk(n, nodes', path', leaves) {
      if n < |nodes| {
        assert NodeOk(n, nodes, path, leaves);
        forall k | 0 <= k < P_L2_SIZE ensures EntryOk(nodes'[n][k], path'[n] + [k], nodes', path', leaves) {
          assert EntryOk(nodes[n][k], path[n] + [k], nodes, path, leaves);
        }
      }
    }
  }

  /** The root entry together with the node pool. */
  datatype Tree = Tree(root: Entry, nodes: seq<Node>)

  ghost predicate TreeOk(t: Tree, path: seq<seq<nat>>, leaves: nat) {
    && 0 < leaves
    && PoolOk(t.nodes, path, leaves)
    && EntryOk(t.root, [], t.nodes, path, leaves)
  }

  predicate PlaceOk(t: Tree, at: Place) {
    at.In? ==> at.node < |t.nodes| && at.slot < P_L2_SIZE && |t.nodes[at.node]| == P_L2_SIZE
  }

  ghost function Label(path: seq<seq<nat>>, at: Place): seq<nat>
    requires at.In? ==> at.node < |path|
  {
    if at.Root? then [] else path[at.node] + [at.slot]
  }

  function Get(t: Tree, at: Place): Entry
    requires PlaceOk(t, at)
  {
    if at.Root? then t.root else t.nodes[at.node][at.slot]
  }

  function Put(t: Tree, at: Place, e: Entry): Tree
    requires PlaceOk(t, at)
  {
    if at.Root? then t.(root := e)
    else t.(nodes := t.nodes[at.node := t.nodes[at.node][at.slot := e]])
  }

  lemma GetOk(t: Tree, path: seq<seq<nat>>, leaves: nat, at: Place)
    requires TreeOk(t, path, leaves) && PlaceOk(t, at)
    ensures EntryOk(Get(t, at), Label(path, at), t.nodes, path, leaves)
    ensures InRange(Get(t, at), t.nodes)
  {
    if at.In? {
      assert NodeOk(at.node, t.nodes, path, leaves);
    }
  }

  lemma PutKeepsTree(t: Tree, path: seq<seq<nat>>, leaves: nat, at: Place, e: Entry)
    requires TreeOk(t, path, leaves) && PlaceOk(t, at)
    requires EntryOk(e, Label(path, at), t.nodes, path, leaves)
    ensures TreeOk(Put(t, at, e), path, leaves)
  {
    if at.In? {
      PutKeepsPool(t.nodes, path, leaves, at.node, at.slot, e);
    }
  }

  lemma GrowKeepsTree(t: Tree, path: seq<seq<nat>>, leaves: nat, node: Node, digits: seq<nat>, level: nat)
    requires TreeOk(t, path, leaves) && Blank(node, level) && |digits| + 1 + level == P_L2_LEVELS
    ensures TreeOk(t.(nodes := t.nodes + [node]), path + [digits], leaves)
  {
    GrowKeepsPool(t.nodes, path, leaves, node, digits, level);
  }

  /** The section number found for page `p` below the entry at `at`. */
  ghost function Below(t: Tree, at: Place, height: nat, p: nat): nat
    requires Closed(t.nodes) && PlaceOk(t, at) && InRange(Get(t, at), t.nodes)
  {
    Walk(t.nodes, Get(t, at), height, p)
  }

  /** What an update below `at` may change: the entry itself, and nodes labelled below it. */
  ghost predicate OnlyBelow(t: Tree, t': Tree, path: seq<seq<nat>>, at: Place)
    requires |path| == |t.nodes| && PlaceOk(t, at)
  {
    && |t.nodes| <= |t'.nodes|
    && (at.In? ==> t'.root == t.root)
    && (forall n :: 0 <= n < |t.nodes| && !(Label(path, at) <= path[n]) && !(at.In? && n == at.node) ==>
          t'.nodes[n] == t.nodes[n])
    && (at.In? ==>
          && |t'.nodes[at.node]| == P_L2_SIZE
          && forall j :: 0 <= j < P_L2_SIZE && j != at.slot ==> t'.nodes[at.node][j] == t.nodes[at.node][j])
  }

  /** No level is skipped: the shape before compaction. */
  ghost predicate Plain(t: Tree) {
    && t.root.skip <= 1
    && forall n, i :: 0 <= n < |t.nodes| && 0 <= i < |t.nodes[n]| ==> t.nodes[n][i].skip <= 1
  }

  /** An update below one slot of node `nid`, itself below `at`, is an update below `at`. */
  lemma OnlyBelowTrans(t0: Tree, t1: Tree, t2: Tree, path0: seq<seq<nat>>, path1: seq<seq<nat>>,
                       at: Place, nid: nat, i: nat)
    requires |path0| == |t0.nodes| && PlaceOk(t0, at) && OnlyBelow(t0, t1, path0, at)
    requires |path1| == |t1.nodes| && path0 <= path1
    requires nid < |t1.nodes| && path1[nid] == Label(path0, at)
    requires PlaceOk(t1, In(nid, i)) && OnlyBelow(t1, t2, path1, In(nid, i))
    ensures OnlyBelow(t0, t2, path0, at)
    ensures PlaceOk(t2, at) && (at.Root? || Get(t2, at) == Get(t1, at)) && (at.Root? ==> t2.root == t1.root)
  {
    var above, below := Label(path0, at), Label(path1, In(nid, i));
    assert above <= below;
    if at.In? {
      assert |path1[at.node]| < |below|;
    }
  }

  /** An update below slot i of `nid` changes only the walks through slot i. */
  lemma OtherSlots(t: Tree, t': Tree, path: seq<seq<nat>>, leaves: nat, nid: nat, i: nat, level: nat)
    requires TreeOk(t, path, leaves) && Closed(t'.nodes)
    requires PlaceOk(t, In(nid, i)) && OnlyBelow(t, t', path, In(nid, i))
    requires |path[nid]| + 1 + level == P_L2_LEVELS
    ensures forall p: nat :: Slot(p, level) != i ==>
      Walk(t'.nodes, t'.nodes[nid][Slot(p, level)], level, p) == Walk(t.nodes, t.nodes[nid][Slot(p, level)], level, p)
  {
    forall p: nat | Slot(p, level) != i
      ensures Walk(t'.nodes, t'.nodes[nid][Slot(p, level)], level, p) ==
        Walk(t.nodes, t.nodes[nid][Slot(p, level)], level, p)
    {
      SiblingFrame(t.nodes, path, leaves, t'.nodes, nid, i, Slot(p, level), level, p);
    }
  }

  /** More sections leave a well-formed tree well formed. */
  lemma LeavesGrow(t: Tree, path: seq<seq<nat>>, leaves: nat, leaves': nat)
    requires TreeOk(t, path, leaves) && leaves <= leaves' <= PHYS_MAP_NODE_NIL
    ensures TreeOk(t, path, leaves')
  {
    forall n | 0 <= n < |t.nodes| ensures NodeOk(n, t.nodes, path, leaves') {
      assert NodeOk(n, t.nodes, path, leaves);
      forall i | 0 <= i < P_L2_SIZE ensures EntryOk(t.nodes[n][i], path[n] + [i], t.nodes, path, leaves') {
        assert EntryOk(t.nodes[n][i], path[n] + [i], t.nodes, path, leaves);
      }
    }
  }
}
