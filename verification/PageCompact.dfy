/** Compaction: an entry whose node has a single child is redirected to that child's target.
    The digit that selected the child is then no longer checked, so a page that was unassigned
    may now find the section of another page; it never loses or swaps a section it had. */
module PageCompact {
  import opened Arith
  import opened Radix
  import opened PageMap

  ghost predicate Walkable(t: Tree, at: Place) {
    Closed(t.nodes) && PlaceOk(t, at) && InRange(Get(t, at), t.nodes)
  }

  /** Some page below `at` finds section s. */
  ghost predicate Hit(t: Tree, at: Place, height: nat, lo: nat, s: nat) {
    && Walkable(t, at)
    && exists q :: lo <= q < lo + Step(height) && Below(t, at, height, q) == s
  }

  /** Every page keeps its section, except that an unassigned one may find a section that some
      page below `at` had. */
  ghost predicate Widened(t0: Tree, t: Tree, at: Place, height: nat, lo: nat) {
    && Walkable(t0, at) && Walkable(t, at)
    && forall p :: lo <= p < lo + Step(height) ==>
         || Below(t, at, height, p) == Below(t0, at, height, p)
         || (Below(t0, at, height, p) == PHYS_SECTION_UNASSIGNED && Hit(t0, at, height, lo, Below(t, at, height, p)))
  }

  lemma WidenedTrans(t0: Tree, t1: Tree, t2: Tree, at: Place, height: nat, lo: nat)
    requires Widened(t0, t1, at, height, lo) && Widened(t1, t2, at, height, lo)
    ensures Widened(t0, t2, at, height, lo)
  {
    forall p | lo <= p < lo + Step(height)
      ensures || Below(t2, at, height, p) == Below(t0, at, height, p)
              || (Below(t0, at, height, p) == PHYS_SECTION_UNASSIGNED
                  && Hit(t0, at, height, lo, Below(t2, at, height, p)))
    {
      if Below(t2, at, height, p) != Below(t1, at, height, p) {
        var q :| lo <= q < lo + Step(height) && Below(t1, at, height, q) == Below(t2, at, height, p);
        assert Below(t1, at, height, q) == Below(t0, at, height, q)
          || Hit(t0, at, height, lo, Below(t1, at, height, q));
      }
    }
  }

  lemma DigitPeriodic(p: nat, s: nat, l: nat, n: nat)
    requires s > 0 && l > 0
    ensures ((p + n * (l * s)) / s) % l == (p / s) % l
  {
    var q, r := p / s, p % s;
    assert n * (l * s) == (n * l) * s by { MulAssoc(n, l, s); }
    assert p + (n * l) * s == (n * l + q) * s + r by {
      assert p == q * s + r;
      MulDistributes(n * l, q, s);
    }
    DivOfMultiple(n * l + q, s, r);
    var q1, r1 := q / l, q % l;
    assert n * l + q == (n + q1) * l + r1 by {
      assert q == q1 * l + r1;
      MulDistributes(n, q1, l);
    }
    DivOfMultiple(n + q1, l, r1);
  }

  lemma {:induction false} StepMultiple(k: nat, height: nat) returns (c: nat)
    requires k <= height
    ensures Step(height) == c * Step(k)
  {
    if k == height {
      c := 1;
    } else {
      var c' := StepMultiple(k, height - 1);
      StepSplits(height - 1);
      c := P_L2_SIZE * c';
      MulAssoc(P_L2_SIZE, c', Step(k));
    }
  }

  /** Digits below `height` do not change when a multiple of Step(height) is added. */
  lemma SlotPeriodic(p: nat, m: nat, height: nat, k: nat)
    requires k < height
    ensures Slot(p + m * Step(height), k) == Slot(p, k)
  {
    var c := StepMultiple(k + 1, height);
    StepSplits(k);
    MulAssoc(m, c, Step(k + 1));
    DigitPeriodic(p, Step(k), P_L2_SIZE, m * c);
  }

  /** A walk of height `height` reads only the lower digits of the page number. */
  lemma {:induction false} WalkPeriodic(nodes: seq<Node>, e: Entry, h: nat, p: nat, m: nat, height: nat)
    requires Closed(nodes) && InRange(e, nodes) && h <= height
    ensures Walk(nodes, e, h, p + m * Step(height)) == Walk(nodes, e, h, p)
    decreases h
  {
    if e.skip != 0 && h >= e.skip && e.ptr != PHYS_MAP_NODE_NIL {
      SlotPeriodic(p, m, height, h - e.skip);
      WalkPeriodic(nodes, nodes[e.ptr][Slot(p, h - e.skip)], h - e.skip, p, m, height);
    }
  }

  /** No entry below `at` skips a level yet. */
  ghost predicate PlainBelow(t: Tree, path: seq<seq<nat>>, at: Place)
    requires |path| == |t.nodes| && PlaceOk(t, at)
  {
    && Get(t, at).skip <= 1
    && forall n :: 0 <= n < |t.nodes| && Label(path, at) <= path[n] ==>
         forall j :: 0 <= j < |t.nodes[n]| ==> t.nodes[n][j].skip <= 1
  }

  /** Compacting below slot i leaves the entries below every other slot plain. */
  lemma PlainSibling(t: Tree, t': Tree, path: seq<seq<nat>>, nid: nat, i: nat, j: nat)
    requires |path| == |t.nodes| == |t'.nodes| && nid < |t.nodes| && i != j
    requires PlaceOk(t, In(nid, i)) && PlaceOk(t, In(nid, j)) && PlainBelow(t, path, In(nid, j))
    requires OnlyBelow(t, t', path, In(nid, i))
    ensures PlaceOk(t', In(nid, j)) && PlainBelow(t', path, In(nid, j))
  {
    var mine, other := Label(path, In(nid, j)), Label(path, In(nid, i));
    forall n | 0 <= n < |t.nodes| && mine <= path[n] ensures t'.nodes[n] == t.nodes[n] {
      assert path[n][|path[nid]|] == j;
      assert other[|path[nid]|] == i;
    }
  }

  lemma PlainChild(t: Tree, path: seq<seq<nat>>, leaves: nat, at: Place, nid: nat, j: nat)
    requires TreeOk(t, path, leaves) && PlaceOk(t, at) && PlainBelow(t, path, at)
    requires nid < |t.nodes| && path[nid] == Label(path, at) && j < P_L2_SIZE
    ensures PlaceOk(t, In(nid, j)) && PlainBelow(t, path, In(nid, j))
  {
    assert NodeOk(nid, t.nodes, path, leaves);
    var child := Label(path, In(nid, j));
    assert Label(path, at) <= child;
  }

  /** A change of the walks below one slot, seen from the entry above the node. */
  lemma WidenedSlot(t1: Tree, t2: Tree, path: seq<seq<nat>>, leaves: nat, at: Place, nid: nat, i: nat, level: nat,
                    lo: nat)
    requires TreeOk(t1, path, leaves) && Walkable(t1, at) && Walkable(t2, at)
    requires Get(t1, at) == Entry(1, nid) == Get(t2, at) && nid != PHYS_MAP_NODE_NIL && nid < |t1.nodes|
    requires |path[nid]| + 1 + level == P_L2_LEVELS && i < P_L2_SIZE
    requires PlaceOk(t1, In(nid, i)) && OnlyBelow(t1, t2, path, In(nid, i))
    requires lo % Step(level + 1) == 0
    requires Widened(t1, t2, In(nid, i), level, EntryLo(lo, level, i))
    ensures Widened(t1, t2, at, level + 1, lo)
  {
    OtherSlots(t1, t2, path, leaves, nid, i, level);
    EntryInside(lo, level, i);
    var height := level + 1;
    forall p | lo <= p < lo + Step(height)
      ensures || Below(t2, at, height, p) == Below(t1, at, height, p)
              || (Below(t1, at, height, p) == PHYS_SECTION_UNASSIGNED
                  && Hit(t1, at, height, lo, Below(t2, at, height, p)))
    {
      EntryOfSlot(lo, level, p);
      if Slot(p, level) == i {
        assert Below(t1, at, height, p) == Below(t1, In(nid, i), level, p);
        assert Below(t2, at, height, p) == Below(t2, In(nid, i), level, p);
        if Below(t2, at, height, p) != Below(t1, at, height, p) {
          var q :| EntryLo(lo, level, i) <= q < EntryLo(lo, level, i) + Step(level)
                   && Below(t1, In(nid, i), level, q) == Below(t2, In(nid, i), level, p);
          SlotIsEntry(lo, level, q, i);
          assert Below(t1, at, height, q) == Below(t2, at, height, p);
        }
      }
    }
  }

  /** Slot v is the only one of node `nid` that leads anywhere. */
  ghost predicate OnlyChild(node: Node, v: nat, level: nat) {
    && |node| == P_L2_SIZE && v < P_L2_SIZE
    && node[v].ptr != PHYS_MAP_NODE_NIL
    && forall j :: 0 <= j < P_L2_SIZE && j != v ==> node[j].ptr == PHYS_MAP_NODE_NIL && 0 < node[j].skip <= level
  }

  /** A leaf is never stored with the nil pointer. */
  lemma NilIsNoLeaf(t: Tree, path: seq<seq<nat>>, leaves: nat, at: Place)
    requires TreeOk(t, path, leaves) && PlaceOk(t, at) && Get(t, at).ptr == PHYS_MAP_NODE_NIL
    ensures 0 < Get(t, at).skip <= P_L2_LEVELS - |Label(path, at)|
  {
    GetOk(t, path, leaves, at);
  }

  function Redirected(e: Entry, child: Entry): Entry {
    Entry(if child.skip == 0 then 0 else e.skip + child.skip, child.ptr)
  }

  /** The redirected entry is well formed, as no last-level node has a single child. */
  lemma RedirectedOk(t: Tree, path: seq<seq<nat>>, leaves: nat, at: Place, nid: nat, level: nat, v: nat)
    requires TreeOk(t, path, leaves) && PlaceOk(t, at) && Get(t, at) == Entry(1, nid) && nid < |t.nodes|
    requires nid != PHYS_MAP_NODE_NIL && |Label(path, at)| + 1 + level == P_L2_LEVELS
    requires OnlyChild(t.nodes[nid], v, level)
    ensures level > 0 && path[nid] == Label(path, at)
    ensures TreeOk(Put(t, at, Redirected(Entry(1, nid), t.nodes[nid][v])), path, leaves)
  {
    GetOk(t, path, leaves, at);
    assert NodeOk(nid, t.nodes, path, leaves);
    var other := if v == 0 then 1 else 0;
    assert EntryOk(t.nodes[nid][other], path[nid] + [other], t.nodes, path, leaves);
    assert EntryOk(t.nodes[nid][v], path[nid] + [v], t.nodes, path, leaves);
    PutKeepsTree(t, path, leaves, at, Redirected(Entry(1, nid), t.nodes[nid][v]));
  }

  /** Redirecting past a node with a single child only widens the walks. */
  lemma RedirectWidens(t: Tree, path: seq<seq<nat>>, leaves: nat, at: Place, nid: nat, level: nat, lo: nat, v: nat)
    requires TreeOk(t, path, leaves) && PlaceOk(t, at) && Get(t, at) == Entry(1, nid) && nid < |t.nodes|
    requires nid != PHYS_MAP_NODE_NIL && |Label(path, at)| + 1 + level == P_L2_LEVELS
    requires lo % Step(level + 1) == 0 && OnlyChild(t.nodes[nid], v, level)
    ensures Widened(t, Put(t, at, Redirected(Entry(1, nid), t.nodes[nid][v])), at, level + 1, lo)
  {
    var child := t.nodes[nid][v];
    var t' := Put(t, at, Redirected(Entry(1, nid), child));
    RedirectedOk(t, path, leaves, at, nid, level, v);
    GetOk(t, path, leaves, at);
    GetOk(t', path, leaves, at);
    assert NodeOk(nid, t.nodes, path, leaves);
    var height := level + 1;
    forall p | lo <= p < lo + Step(height)
      ensures || Below(t', at, height, p) == Below(t, at, height, p)
              || (Below(t, at, height, p) == PHYS_SECTION_UNASSIGNED
                  && Hit(t, at, height, lo, Below(t', at, height, p)))
    {
      WalkAfter(t, t', path, leaves, at, nid, level, v, p);
      RedirectedPage(t, at, nid, level, lo, v, p);
    }
  }

  /** A page of another slot finds, after the redirection, what a page of slot v found before. */
  lemma RedirectedPage(t: Tree, at: Place, nid: nat, level: nat, lo: nat, v: nat, p: nat)
    requires Walkable(t, at) && Get(t, at) == Entry(1, nid) && nid < |t.nodes|
    requires nid != PHYS_MAP_NODE_NIL && OnlyChild(t.nodes[nid], v, level)
    requires lo % Step(level + 1) == 0 && lo <= p < lo + Step(level + 1)
    ensures var found := Walk(t.nodes, t.nodes[nid][v], level, p);
      || found == Below(t, at, level + 1, p)
      || (Below(t, at, level + 1, p) == PHYS_SECTION_UNASSIGNED && Hit(t, at, level + 1, lo, found))
  {
    WalkBefore(t, at, nid, level, v, p);
    var u := Slot(p, level);
    if u != v {
      EntryOfSlot(lo, level, p);
      var q := EntryLo(lo, level, v) + (p - EntryLo(lo, level, u));
      ShiftedWalk(t.nodes, t.nodes[nid][v], lo, level, p, u, v);
      SlotIsEntry(lo, level, q, v);
      EntryInside(lo, level, v);
      WalkBefore(t, at, nid, level, v, q);
    }
  }

  lemma WalkBefore(t: Tree, at: Place, nid: nat, level: nat, v: nat, p: nat)
    requires Walkable(t, at) && Get(t, at) == Entry(1, nid) && nid < |t.nodes|
    requires nid != PHYS_MAP_NODE_NIL && OnlyChild(t.nodes[nid], v, level)
    ensures Below(t, at, level + 1, p)
      == if Slot(p, level) == v then Walk(t.nodes, t.nodes[nid][v], level, p) else PHYS_SECTION_UNASSIGNED
  {
    var e := t.nodes[nid][Slot(p, level)];
    assert InRange(e, t.nodes);
    assert Below(t, at, level + 1, p) == Walk(t.nodes, e, level, p);
    if Slot(p, level) != v {
      NilWalk(t.nodes, e, level, p);
    }
  }

  lemma NilWalk(nodes: seq<Node>, e: Entry, h: nat, p: nat)
    requires Closed(nodes) && e.ptr == PHYS_MAP_NODE_NIL && 0 < e.skip <= h
    ensures Walk(nodes, e, h, p) == PHYS_SECTION_UNASSIGNED
  {
  }

  lemma WalkAfter(t: Tree, t': Tree, path: seq<seq<nat>>, leaves: nat, at: Place, nid: nat, level: nat, v: nat, p: nat)
    requires TreeOk(t, path, leaves) && PlaceOk(t, at) && nid < |t.nodes|
    requires |Label(path, at)| + 1 + level == P_L2_LEVELS
    requires OnlyChild(t.nodes[nid], v, level) && path[nid] == Label(path, at)
    requires t' == Put(t, at, Redirected(Entry(1, nid), t.nodes[nid][v])) && Walkable(t', at)
    ensures Below(t', at, level + 1, p) == Walk(t.nodes, t.nodes[nid][v], level, p)
  {
    var child, digits := t.nodes[nid][v], path[nid] + [v];
    GetOk(t, path, leaves, In(nid, v));
    forall n | 0 <= n < |t.nodes| && digits <= path[n] ensures t'.nodes[n] == t.nodes[n] {
    }
    WalkFrame(t.nodes, path, leaves, t'.nodes, child, digits, level, p);
    SkipAdds(t'.nodes, child, level, p);
  }

  /** One entry with the sum of two skips walks like the second from one level below. */
  lemma SkipAdds(nodes: seq<Node>, child: Entry, level: nat, p: nat)
    requires Closed(nodes) && InRange(child, nodes) && child.ptr != PHYS_MAP_NODE_NIL
    ensures InRange(Redirected(Entry(1, 0), child), nodes)
    ensures Walk(nodes, Redirected(Entry(1, 0), child), level + 1, p) == Walk(nodes, child, level, p)
  {
    if child.skip != 0 && child.skip <= level {
      assert level + 1 - (1 + child.skip) == level - child.skip;
    }
  }

  lemma ShiftedWalk(nodes: seq<Node>, e: Entry, lo: nat, level: nat, p: nat, u: nat, v: nat)
    requires Closed(nodes) && InRange(e, nodes) && EntryLo(lo, level, u) <= p
    ensures Walk(nodes, e, level, EntryLo(lo, level, v) + (p - EntryLo(lo, level, u))) == Walk(nodes, e, level, p)
  {
    var r := p - EntryLo(lo, level, u);
    WalkPeriodic(nodes, e, level, lo + r, u, level);
    WalkPeriodic(nodes, e, level, lo + r, v, level);
  }

  /** What the counting loop knows after i slots: which of them, if exactly one, is in use. */
  ghost predicate Counted(node: Node, i: nat, validPtr: nat, valid: nat) {
    && i <= |node| == P_L2_SIZE
    && (valid == 0 ==> forall k :: 0 <= k < i ==> node[k].ptr == PHYS_MAP_NODE_NIL)
    && (valid == 1 ==>
          && validPtr < i && node[validPtr].ptr != PHYS_MAP_NODE_NIL
          && forall k :: 0 <= k < i && k != validPtr ==> node[k].ptr == PHYS_MAP_NODE_NIL)
    && (valid > 0 ==> validPtr < i && node[validPtr].ptr != PHYS_MAP_NODE_NIL)
    && (valid > 1 ==> exists k :: 0 <= k < i && k != validPtr && node[k].ptr != PHYS_MAP_NODE_NIL)
  }

  /** One slot more, in use before and after its compaction, or not in use. */
  lemma CountedMore(node: Node, node': Node, i: nat, validPtr: nat, valid: nat)
    requires Counted(node, i, validPtr, valid) && i < P_L2_SIZE == |node'|
    requires forall j :: 0 <= j < P_L2_SIZE && j != i ==> node'[j] == node[j]
    ensures if node'[i].ptr != PHYS_MAP_NODE_NIL then Counted(node', i + 1, i, valid + 1)
            else Counted(node', i + 1, validPtr, valid)
  {
    if valid > 0 {
      assert node'[validPtr] == node[validPtr];
    }
  }

  lemma CountedOnly(t: Tree, path: seq<seq<nat>>, leaves: nat, nid: nat, level: nat, v: nat)
    requires TreeOk(t, path, leaves) && nid < |t.nodes| && |path[nid]| + 1 + level == P_L2_LEVELS
    requires Counted(t.nodes[nid], P_L2_SIZE, v, 1)
    ensures OnlyChild(t.nodes[nid], v, level)
  {
    forall j | 0 <= j < P_L2_SIZE && j != v ensures 0 < t.nodes[nid][j].skip <= level {
      NilIsNoLeaf(t, path, leaves, In(nid, j));
    }
  }

  // ---- Nothing is left to compact ----

  /** Slot v is the only one of the node in use. */
  predicate Single(node: Node, v: nat) {
    && v < |node| && node[v].ptr != PHYS_MAP_NODE_NIL
    && forall j :: 0 <= j < |node| && j != v ==> node[j].ptr == PHYS_MAP_NODE_NIL
  }

  /** The entry's node has not just one child, or skipping it does not fit the bits there are for that. */
  ghost predicate Tight(nodes: seq<Node>, e: Entry)
    requires e.ptr < |nodes|
  {
    forall v: nat :: Single(nodes[e.ptr], v) ==> e.skip + nodes[e.ptr][v].skip >= 8
  }

  /** No step of the walk of page p can be skipped. */
  ghost predicate Packed(nodes: seq<Node>, e: Entry, i: nat, p: nat)
    requires Closed(nodes) && InRange(e, nodes)
    decreases i
  {
    || e.skip == 0 || i < e.skip || e.ptr == PHYS_MAP_NODE_NIL
    || (Tight(nodes, e) && Packed(nodes, nodes[e.ptr][Slot(p, i - e.skip)], i - e.skip, p))
  }

  ghost predicate AllPacked(t: Tree, at: Place, height: nat) {
    Walkable(t, at) && forall p: nat :: Packed(t.nodes, Get(t, at), height, p)
  }

  lemma {:induction false} PackedFrame(nodes: seq<Node>, path: seq<seq<nat>>, leaves: nat,
                                       nodes': seq<Node>, e: Entry, at: seq<nat>, i: nat, p: nat)
    requires PoolOk(nodes, path, leaves) && EntryOk(e, at, nodes, path, leaves)
    requires Closed(nodes') && |nodes| <= |nodes'| && |at| + i == P_L2_LEVELS
    requires forall n :: 0 <= n < |nodes| && at <= path[n] ==> nodes'[n] == nodes[n]
    requires Packed(nodes, e, i, p)
    ensures InRange(e, nodes') && Packed(nodes', e, i, p)
    decreases i
  {
    if e.skip != 0 && e.ptr != PHYS_MAP_NODE_NIL {
      assert NodeOk(e.ptr, nodes, path, leaves);
      var j := Slot(p, i - e.skip);
      var at' := path[e.ptr] + [j];
      assert at <= at';
      PackedFrame(nodes, path, leaves, nodes', nodes[e.ptr][j], at', i - e.skip, p);
    }
  }

  /** Compacting below slot i keeps what is below another slot packed. */
  lemma PackedSibling(t: Tree, t': Tree, path: seq<seq<nat>>, leaves: nat, nid: nat, i: nat, j: nat, level: nat)
    requires TreeOk(t, path, leaves) && TreeOk(t', path, leaves) && nid < |t.nodes| && i < P_L2_SIZE && j < P_L2_SIZE
    requires i != j && |path[nid]| + 1 + level == P_L2_LEVELS
    requires PlaceOk(t, In(nid, i)) && OnlyBelow(t, t', path, In(nid, i)) && AllPacked(t, In(nid, j), level)
    ensures AllPacked(t', In(nid, j), level)
  {
    GetOk(t, path, leaves, In(nid, j));
    var at := path[nid] + [j];
    forall n | 0 <= n < |t.nodes| && at <= path[n] ensures t'.nodes[n] == t.nodes[n] {
      assert path[n][|path[nid]|] == j && (path[nid] + [i])[|path[nid]|] == i;
    }
    forall p: nat ensures InRange(Get(t', In(nid, j)), t'.nodes) && Packed(t'.nodes, Get(t', In(nid, j)), level, p) {
      PackedFrame(t.nodes, path, leaves, t'.nodes, Get(t, In(nid, j)), at, level, p);
    }
  }

  /** The first i children of node `nid` are packed. */
  ghost predicate ChildrenPacked(t: Tree, nid: nat, i: nat, level: nat) {
    forall j :: 0 <= j < i ==> AllPacked(t, In(nid, j), level)
  }

  lemma ChildrenStay(t: Tree, t': Tree, path: seq<seq<nat>>, leaves: nat, nid: nat, i: nat, level: nat)
    requires TreeOk(t, path, leaves) && TreeOk(t', path, leaves) && nid < |t.nodes| && i < P_L2_SIZE
    requires |path[nid]| + 1 + level == P_L2_LEVELS && PlaceOk(t, In(nid, i))
    requires OnlyBelow(t, t', path, In(nid, i)) && ChildrenPacked(t, nid, i, level)
    ensures ChildrenPacked(t', nid, i, level)
  {
    forall j | 0 <= j < i ensures AllPacked(t', In(nid, j), level) {
      PackedSibling(t, t', path, leaves, nid, i, j, level);
    }
  }

  /** A child that is a leaf or empty is packed. */
  lemma PlainPacked(t: Tree, path: seq<seq<nat>>, leaves: nat, nid: nat, j: nat, level: nat)
    requires TreeOk(t, path, leaves) && nid < |t.nodes| && j < P_L2_SIZE && PlaceOk(t, In(nid, j))
    requires t.nodes[nid][j].skip == 0 || t.nodes[nid][j].ptr == PHYS_MAP_NODE_NIL
    ensures ChildrenPacked(t, nid, j, level) ==> ChildrenPacked(t, nid, j + 1, level)
  {
    GetOk(t, path, leaves, In(nid, j));
  }

  /** An entry over packed children is packed if it is itself tight. */
  lemma TightPacked(t: Tree, path: seq<seq<nat>>, leaves: nat, at: Place, nid: nat, level: nat)
    requires TreeOk(t, path, leaves) && PlaceOk(t, at) && Get(t, at) == Entry(1, nid) && nid < |t.nodes|
    requires Tight(t.nodes, Entry(1, nid)) && ChildrenPacked(t, nid, P_L2_SIZE, level)
    ensures AllPacked(t, at, level + 1)
  {
    var height := level + 1;
    GetOk(t, path, leaves, at);
    forall p: nat ensures Packed(t.nodes, Get(t, at), height, p) {
      assert AllPacked(t, In(nid, Slot(p, level)), level);
    }
  }

  /** The counting loop finds out whether there is just one child. */
  lemma CountedTight(nodes: seq<Node>, e: Entry, validPtr: nat, valid: nat)
    requires e.ptr < |nodes| && Counted(nodes[e.ptr], P_L2_SIZE, validPtr, valid)
    requires valid == 1 ==> e.skip + nodes[e.ptr][validPtr].skip >= 8
    ensures Tight(nodes, e)
  {
    forall v: nat | Single(nodes[e.ptr], v) ensures e.skip + nodes[e.ptr][v].skip >= 8 {
      assert v == validPtr;
    }
  }

  /** An entry redirected to the target of a packed child is packed. */
  lemma RedirectPacked(t: Tree, path: seq<seq<nat>>, leaves: nat, at: Place, nid: nat, level: nat, v: nat)
    requires TreeOk(t, path, leaves) && PlaceOk(t, at) && Get(t, at) == Entry(1, nid) && nid < |t.nodes|
    requires path[nid] == Label(path, at) && |path[nid]| + 1 + level == P_L2_LEVELS
    requires v < P_L2_SIZE && PlaceOk(t, In(nid, v)) && t.nodes[nid][v].ptr != PHYS_MAP_NODE_NIL
    requires AllPacked(t, In(nid, v), level)
    requires TreeOk(Put(t, at, Redirected(Entry(1, nid), t.nodes[nid][v])), path, leaves)
    ensures AllPacked(Put(t, at, Redirected(Entry(1, nid), t.nodes[nid][v])), at, level + 1)
  {
    var child := t.nodes[nid][v];
    var t' := Put(t, at, Redirected(Entry(1, nid), child));
    GetOk(t, path, leaves, In(nid, v));
    GetOk(t', path, leaves, at);
    var below := path[nid] + [v];
    forall n | 0 <= n < |t.nodes| && below <= path[n] ensures t'.nodes[n] == t.nodes[n] {
      assert |below| <= |path[n]|;
    }
    var height := level + 1;
    forall p: nat ensures Packed(t'.nodes, Get(t', at), height, p) {
      PackedFrame(t.nodes, path, leaves, t'.nodes, child, below, level, p);
    }
  }

  /** The children of node `nid` from slot i on are still plain. */
  ghost predicate RestPlain(t: Tree, path: seq<seq<nat>>, nid: nat, i: nat) {
    && |path| == |t.nodes| && nid < |t.nodes| && |t.nodes[nid]| == P_L2_SIZE
    && forall j :: i <= j < P_L2_SIZE ==> PlainBelow(t, path, In(nid, j))
  }

  lemma AllPlain(t: Tree, path: seq<seq<nat>>, leaves: nat, at: Place, nid: nat)
    requires TreeOk(t, path, leaves) && PlaceOk(t, at) && PlainBelow(t, path, at)
    requires nid < |t.nodes| && path[nid] == Label(path, at)
    ensures RestPlain(t, path, nid, 0)
  {
    assert NodeOk(nid, t.nodes, path, leaves);
    forall j | 0 <= j < P_L2_SIZE ensures PlainBelow(t, path, In(nid, j)) {
      PlainChild(t, path, leaves, at, nid, j);
    }
  }

  /** Child i of node `nid` was compacted: the node's other children and what is above it stand. */
  lemma ChildDone(t0: Tree, t1: Tree, t2: Tree, path: seq<seq<nat>>, leaves: nat, at: Place,
                  nid: nat, i: nat, level: nat, lo: nat)
    requires TreeOk(t1, path, leaves) && TreeOk(t2, path, leaves)
    requires |t0.nodes| == |path| && PlaceOk(t0, at) && OnlyBelow(t0, t1, path, at)
    requires Walkable(t1, at) && Get(t1, at) == Entry(1, nid) && nid != PHYS_MAP_NODE_NIL && nid < |t1.nodes|
    requires path[nid] == Label(path, at) && |path[nid]| + 1 + level == P_L2_LEVELS && i < P_L2_SIZE
    requires PlaceOk(t1, In(nid, i)) && OnlyBelow(t1, t2, path, In(nid, i))
    requires lo % Step(level + 1) == 0
    requires Widened(t1, t2, In(nid, i), level, EntryLo(lo, level, i))
    requires Widened(t0, t1, at, level + 1, lo)
    ensures OnlyBelow(t0, t2, path, at) && PlaceOk(t2, at) && Get(t2, at) == Entry(1, nid)
    ensures Widened(t0, t2, at, level + 1, lo)
  {
    OnlyBelowTrans(t0, t1, t2, path, path, at, nid, i);
    GetOk(t2, path, leaves, at);
    WidenedSlot(t1, t2, path, leaves, at, nid, i, level, lo);
    WidenedTrans(t0, t1, t2, at, level + 1, lo);
  }

  lemma RestPlainStep(t1: Tree, t2: Tree, path: seq<seq<nat>>, nid: nat, i: nat)
    requires RestPlain(t1, path, nid, i) && i < P_L2_SIZE && |t2.nodes| == |path|
    requires OnlyBelow(t1, t2, path, In(nid, i))
    ensures RestPlain(t2, path, nid, i + 1)
  {
    forall j | i + 1 <= j < P_L2_SIZE ensures PlainBelow(t2, path, In(nid, j)) {
      PlainSibling(t1, t2, path, nid, i, j);
    }
  }
}
