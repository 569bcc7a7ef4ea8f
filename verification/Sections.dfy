/** The section table beside the page map, and what finding an address in both means. */
module Sections {
  import opened Arith
  import opened Radix
  import opened PageMap
  import opened PageCompact

  /** The memory regions of a dispatch table; `Subpage(k)` is the k-th sub-page container. */
  datatype Region = Unassigned | NotDirty | Rom | Watch | Subpage(id: nat) | Device(id: nat)

  datatype Section = Section(mr: Region, addr: nat, size: nat, regionOffset: nat)

  const DUMMY_SECTIONS: seq<Section> := [
    Section(Unassigned, 0, ADDR_SPACE, 0),
    Section(NotDirty, 0, ADDR_SPACE, 0),
    Section(Rom, 0, ADDR_SPACE, 0),
    Section(Watch, 0, ADDR_SPACE, 0)]

  predicate Contains(s: Section, a: nat) {
    s.addr <= a < s.addr + s.size
  }

  /** The final test of a lookup: the section spans the whole space or covers the address. */
  predicate Covers(s: Section, a: nat) {
    s.size >= ADDR_SPACE || Contains(s, a)
  }

  /** Two sections place the same region bytes at the same addresses. */
  predicate SameTranslation(s: Section, s': Section) {
    s.mr == s'.mr && s.regionOffset - s.addr == s'.regionOffset - s'.addr
  }

  function PageOf(a: nat): nat { a / TARGET_PAGE_SIZE }
  function OffsetIn(a: nat): (o: nat) ensures o < TARGET_PAGE_SIZE { a % TARGET_PAGE_SIZE }

  /** A section stored in the page map: a run of whole pages. */
  predicate Paged(s: Section) {
    OffsetIn(s.size) == 0
  }

  predicate PageIn(s: Section, p: nat) {
    PageOf(s.addr) <= p < PageOf(s.addr) + PageOf(s.size)
  }

  predicate SectionOk(s: Section, subs: seq<seq<nat>>) {
    && 0 < s.size && s.addr + s.size <= ADDR_SPACE
    && (Paged(s) ==> OffsetIn(s.addr) == 0)
    && (!Paged(s) ==> OffsetIn(s.addr) + s.size <= TARGET_PAGE_SIZE)
    && (s.mr.Device? || (s.mr.Subpage? && s.mr.id < |subs| && s.size == TARGET_PAGE_SIZE && Paged(s)))
  }

  predicate TableOk(sections: seq<Section>, subs: seq<seq<nat>>) {
    && DUMMY_SECTIONS <= sections
    && (forall k :: 4 <= k < |sections| ==> SectionOk(sections[k], subs))
    && (forall c, d :: 4 <= c < d < |sections| && sections[c].mr.Subpage? ==> sections[c].mr != sections[d].mr)
    && (forall id :: 0 <= id < |subs| ==> |subs[id]| == TARGET_PAGE_SIZE)
  }

  ghost function Page(t: Tree, p: nat): nat
    requires Walkable(t, Root)
  {
    Below(t, Root, P_L2_LEVELS, p)
  }

  /** The map sends exactly the pages of each paged section to that section. */
  ghost predicate PagesOk(t: Tree, sections: seq<Section>) {
    && Walkable(t, Root)
    && (forall p :: 0 <= p < Step(P_L2_LEVELS) ==>
          || Page(t, p) == PHYS_SECTION_UNASSIGNED
          || (4 <= Page(t, p) < |sections| && Paged(sections[Page(t, p)]) && PageIn(sections[Page(t, p)], p)))
    && (forall k, p :: 4 <= k < |sections| && Paged(sections[k]) && PageIn(sections[k], p) ==> Page(t, p) == k)
  }

  /** Address a of the small section k leads through its page's container back to k. */
  ghost predicate SmallFound(t: Tree, sections: seq<Section>, subs: seq<seq<nat>>, k: nat, a: nat)
    requires Walkable(t, Root)
  {
    var c := Page(t, PageOf(a));
    && c < |sections| && sections[c].mr.Subpage? && sections[c].mr.id < |subs|
    && |subs[sections[c].mr.id]| == TARGET_PAGE_SIZE && subs[sections[c].mr.id][OffsetIn(a)] == k
  }

  /** What an entry of container c may say. */
  predicate SlotOk(sections: seq<Section>, subs: seq<seq<nat>>, c: nat, offset: nat)
    requires c < |sections| && sections[c].mr.Subpage? && sections[c].mr.id < |subs|
    requires offset < |subs[sections[c].mr.id]|
  {
    var v := subs[sections[c].mr.id][offset];
    || v == PHYS_SECTION_UNASSIGNED
    || (4 <= v < |sections| && !Paged(sections[v]) && Contains(sections[v], sections[c].addr + offset))
  }

  ghost predicate SmallOk(t: Tree, sections: seq<Section>, subs: seq<seq<nat>>)
    requires TableOk(sections, subs) && Walkable(t, Root)
  {
    && (forall k, a :: 4 <= k < |sections| && !Paged(sections[k]) && Contains(sections[k], a) ==>
          SmallFound(t, sections, subs, k, a))
    && (forall c, o :: 4 <= c < |sections| && sections[c].mr.Subpage? && 0 <= o < TARGET_PAGE_SIZE ==>
          SlotOk(sections, subs, c, o))
  }

  /** Every container was made for some small section of its page. */
  ghost predicate Inhabited(sections: seq<Section>) {
    forall c :: 4 <= c < |sections| && sections[c].mr.Subpage? ==> HasSmall(sections, PageOf(sections[c].addr))
  }

  ghost predicate HasSmall(sections: seq<Section>, p: nat) {
    exists k :: 4 <= k < |sections| && !Paged(sections[k]) && PageOf(sections[k].addr) == p
  }

  ghost predicate MapOk(t: Tree, sections: seq<Section>, subs: seq<seq<nat>>) {
    TableOk(sections, subs) && PagesOk(t, sections) && SmallOk(t, sections, subs) && Inhabited(sections)
  }

  /** `phys_page_find`: the walk, then the range test. */
  function Find(t: Tree, sections: seq<Section>, a: nat): nat
    requires Closed(t.nodes) && InRange(t.root, t.nodes)
  {
    var k := Walk(t.nodes, t.root, P_L2_LEVELS, PageOf(a));
    if k < |sections| && Covers(sections[k], a) then k else PHYS_SECTION_UNASSIGNED
  }

  lemma PageInSpace(a: nat)
    requires a < ADDR_SPACE
    ensures PageOf(a) < Step(P_L2_LEVELS)
  {
    var n := Step(P_L2_LEVELS);
    assert a == TARGET_PAGE_SIZE * PageOf(a) + OffsetIn(a);
    if PageOf(a) >= n {
      MulMonotone(n, PageOf(a), TARGET_PAGE_SIZE);
    }
  }

  /** For a run of whole pages, an address is inside exactly when its page is. */
  lemma PagedContains(s: Section, a: nat)
    requires Paged(s) && OffsetIn(s.addr) == 0
    ensures Contains(s, a) <==> PageIn(s, PageOf(a))
  {
    var ps, p, first, n := TARGET_PAGE_SIZE, PageOf(a), PageOf(s.addr), PageOf(s.size);
    assert a == ps * p + OffsetIn(a) && s.addr == ps * first && s.size == ps * n;
    assert ps * (first + n) == s.addr + s.size;
    if p < first {
      MulMonotone(p, first, ps);
    } else if p < first + n {
      MulMonotone(first, p, ps);
      MulMonotone(p, first + n, ps);
    } else {
      MulMonotone(first + n, p, ps);
    }
  }

  lemma WidenedPage(t0: Tree, t: Tree, p: nat) returns (q: nat)
    requires Widened(t0, t, Root, P_L2_LEVELS, 0) && p < Step(P_L2_LEVELS)
    ensures q < Step(P_L2_LEVELS) && Page(t0, q) == Page(t, p)
    ensures Page(t, p) != Page(t0, p) ==> Page(t0, p) == PHYS_SECTION_UNASSIGNED
  {
    q := p;
    assert Below(t, Root, P_L2_LEVELS, p) == Page(t, p);
    if Page(t, p) != Page(t0, p) {
      assert Hit(t0, Root, P_L2_LEVELS, 0, Below(t, Root, P_L2_LEVELS, p));
      q :| 0 <= q < 0 + Step(P_L2_LEVELS) && Below(t0, Root, P_L2_LEVELS, q) == Page(t, p);
    }
  }

  /** A section found for some page covers an address only if the address's page finds it too. */
  lemma StrangerRejected(t0: Tree, sections: seq<Section>, subs: seq<seq<nat>>, a: nat, q: nat)
    requires TableOk(sections, subs) && PagesOk(t0, sections) && a < ADDR_SPACE && q < Step(P_L2_LEVELS)
    requires Page(t0, q) != Page(t0, PageOf(a)) && Page(t0, q) != PHYS_SECTION_UNASSIGNED
    ensures Page(t0, q) < |sections| && !Covers(sections[Page(t0, q)], a)
  {
    var k := Page(t0, q);
    assert SectionOk(sections[k], subs);
    PagedContains(sections[k], a);
  }

  /** Compaction changes no lookup: the range test rejects every section that a dropped digit
      lets through. */
  lemma CompactionInvisible(t0: Tree, t: Tree, sections: seq<Section>, subs: seq<seq<nat>>, a: nat)
    requires TableOk(sections, subs) && PagesOk(t0, sections)
    requires Widened(t0, t, Root, P_L2_LEVELS, 0) && a < ADDR_SPACE
    ensures Find(t, sections, a) == Find(t0, sections, a)
  {
    var p := PageOf(a);
    PageInSpace(a);
    var q := WidenedPage(t0, t, p);
    assert Page(t, p) == Walk(t.nodes, t.root, P_L2_LEVELS, p);
    assert Page(t0, p) == Walk(t0.nodes, t0.root, P_L2_LEVELS, p);
    if Page(t, p) != Page(t0, p) {
      StrangerRejected(t0, sections, subs, a, q);
    }
  }

  /** `address_space_lookup_region` with sub-page resolution. */
  function Lookup(t: Tree, sections: seq<Section>, subs: seq<seq<nat>>, a: nat): nat
    requires Closed(t.nodes) && InRange(t.root, t.nodes) && TableOk(sections, subs)
  {
    var k := Find(t, sections, a);
    if 4 <= k && sections[k].mr.Subpage? then subs[sections[k].mr.id][OffsetIn(a)] else k
  }

  /** A section that was added, as opposed to a dummy or a sub-page container. */
  predicate IsPiece(sections: seq<Section>, k: nat) {
    4 <= k < |sections| && !sections[k].mr.Subpage?
  }

  /** The lookup of `a` gives the piece that contains it, and the unassigned section if none does. */
  ghost predicate ExactAt(t: Tree, sections: seq<Section>, subs: seq<seq<nat>>, a: nat) {
    && Closed(t.nodes) && InRange(t.root, t.nodes) && TableOk(sections, subs)
    && var k := Lookup(t, sections, subs, a);
    && (k == PHYS_SECTION_UNASSIGNED || (IsPiece(sections, k) && Contains(sections[k], a)))
    && (forall j: nat :: IsPiece(sections, j) && Contains(sections[j], a) ==> k == j)
  }

  /** Before compaction the range test never rejects. */
  lemma FindIsPage(t: Tree, sections: seq<Section>, subs: seq<seq<nat>>, a: nat)
    requires TableOk(sections, subs) && PagesOk(t, sections) && a < ADDR_SPACE
    ensures Find(t, sections, a) == Page(t, PageOf(a))
  {
    var k := Page(t, PageOf(a));
    PageInSpace(a);
    assert k == Walk(t.nodes, t.root, P_L2_LEVELS, PageOf(a));
    if k != PHYS_SECTION_UNASSIGNED {
      assert SectionOk(sections[k], subs);
      PagedContains(sections[k], a);
    } else {
      assert sections[0] == DUMMY_SECTIONS[0];
    }
  }

  lemma ContainerAt(s: Section, a: nat)
    requires Paged(s) && OffsetIn(s.addr) == 0 && s.size == TARGET_PAGE_SIZE && PageIn(s, PageOf(a))
    ensures s.addr + OffsetIn(a) == a
  {
    DivOfMultiple(1, TARGET_PAGE_SIZE, 0);
    assert PageOf(s.size) == 1;
    assert s.addr == TARGET_PAGE_SIZE * PageOf(s.addr);
  }

  lemma MapExact(t: Tree, sections: seq<Section>, subs: seq<seq<nat>>, a: nat)
    requires MapOk(t, sections, subs) && a < ADDR_SPACE
    ensures ExactAt(t, sections, subs, a)
  {
    FindIsPage(t, sections, subs, a);
    PageInSpace(a);
    var c := Page(t, PageOf(a));
    if c != PHYS_SECTION_UNASSIGNED {
      assert SectionOk(sections[c], subs);
      PagedContains(sections[c], a);
      if sections[c].mr.Subpage? {
        assert SlotOk(sections, subs, c, OffsetIn(a));
        ContainerAt(sections[c], a);
      }
    }
    forall j: nat | IsPiece(sections, j) && Contains(sections[j], a)
      ensures Lookup(t, sections, subs, a) == j
    {
      assert SectionOk(sections[j], subs);
      if Paged(sections[j]) {
        PagedContains(sections[j], a);
      } else {
        assert SmallFound(t, sections, subs, j, a);
      }
    }
  }
}
