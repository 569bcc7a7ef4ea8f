/** What registering one section does to the page map, the section table and the sub-pages. */
module Register {
  import opened Arith
  import opened Radix
  import opened PageMap
  import opened PageFill
  import opened PageCompact
  import opened Sections

  predicate Disjoint(s: Section, s': Section) {
    s.addr + s.size <= s'.addr || s'.addr + s'.size <= s.addr
  }

  /** `s` shares no address with a section added before. */
  ghost predicate Fresh(sections: seq<Section>, s: Section) {
    forall k: nat :: IsPiece(sections, k) ==> Disjoint(sections[k], s)
  }

  lemma PagesInSpace(s: Section)
    requires Paged(s) && OffsetIn(s.addr) == 0 && s.addr + s.size <= ADDR_SPACE
    ensures PageOf(s.addr) + PageOf(s.size) <= Step(P_L2_LEVELS)
  {
    var ps, n := TARGET_PAGE_SIZE, PageOf(s.addr) + PageOf(s.size);
    assert s.addr == PageOf(s.addr) * ps && s.size == PageOf(s.size) * ps;
    MulDistributes(PageOf(s.addr), PageOf(s.size), ps);
    if n > SPACE_PAGES {
      MulMonotone(SPACE_PAGES, n, ps);
    }
  }

  /** The pages of a fresh whole-page section are unassigned: no container is left over from a
      section that is not there. */
  lemma FreshPagesFree(t: Tree, sections: seq<Section>, subs: seq<seq<nat>>, s: Section, p: nat)
    requires MapOk(t, sections, subs) && Fresh(sections, s)
    requires Paged(s) && OffsetIn(s.addr) == 0 && s.addr + s.size <= ADDR_SPACE && PageIn(s, p)
    ensures Page(t, p) == PHYS_SECTION_UNASSIGNED
  {
    PagesInSpace(s);
    var k := Page(t, p);
    if k != PHYS_SECTION_UNASSIGNED {
      assert SectionOk(sections[k], subs);
      if sections[k].mr.Subpage? {
        PageStart(sections[k], p);
        var j :| 4 <= j < |sections| && !Paged(sections[j]) && PageOf(sections[j].addr) == p;
        assert SectionOk(sections[j], subs) && IsPiece(sections, j);
        PagedContains(s, sections[j].addr);
      } else {
        assert IsPiece(sections, k);
        FirstAddress(p);
        PagedContains(s, p * TARGET_PAGE_SIZE);
        PagedContains(sections[k], p * TARGET_PAGE_SIZE);
      }
      assert false;
    }
  }

  lemma FirstAddress(p: nat)
    ensures PageOf(p * TARGET_PAGE_SIZE) == p && OffsetIn(p * TARGET_PAGE_SIZE) == 0
  {
    DivOfMultiple(p, TARGET_PAGE_SIZE, 0);
  }

  lemma PageStart(s: Section, p: nat)
    requires s.size == TARGET_PAGE_SIZE && PageIn(s, p)
    ensures PageOf(s.addr) == p
  {
    DivOfMultiple(1, TARGET_PAGE_SIZE, 0);
  }

  /** The page of a fresh small section is unassigned or already has a container. */
  lemma FreshSmallPage(t: Tree, sections: seq<Section>, subs: seq<seq<nat>>, s: Section)
    requires MapOk(t, sections, subs) && Fresh(sections, s)
    requires 0 < s.size && s.addr < ADDR_SPACE
    ensures var c := Page(t, PageOf(s.addr));
      c == PHYS_SECTION_UNASSIGNED || (4 <= c < |sections| && sections[c].mr.Subpage?)
  {
    PageInSpace(s.addr);
    var c := Page(t, PageOf(s.addr));
    if c != PHYS_SECTION_UNASSIGNED && !sections[c].mr.Subpage? {
      assert SectionOk(sections[c], subs) && IsPiece(sections, c);
      PagedContains(sections[c], s.addr);
      assert false;
    }
  }

  lemma TableAdd(sections: seq<Section>, subs: seq<seq<nat>>, subs': seq<seq<nat>>, s: Section)
    requires TableOk(sections, subs) && SectionOk(s, subs')
    requires |subs| <= |subs'| && forall id :: 0 <= id < |subs'| ==> |subs'[id]| == TARGET_PAGE_SIZE
    requires s.mr.Subpage? ==> s.mr.id >= |subs|
    ensures TableOk(sections + [s], subs')
  {
    var sections' := sections + [s];
    forall k | 4 <= k < |sections'| ensures SectionOk(sections'[k], subs') {
      if k < |sections| {
        assert SectionOk(sections[k], subs);
      }
    }
    forall c, d | 4 <= c < d < |sections'| && sections'[c].mr.Subpage? ensures sections'[c].mr != sections'[d].mr {
      assert SectionOk(sections[c], subs);
    }
  }

  lemma PagesAdd(t0: Tree, t1: Tree, sections: seq<Section>, subs: seq<seq<nat>>, s: Section)
    requires TableOk(sections, subs) && PagesOk(t0, sections)
    requires Paged(s) && OffsetIn(s.addr) == 0 && s.addr + s.size <= ADDR_SPACE
    requires SetBelow(t0, t1, Root, P_L2_LEVELS, 0, PageOf(s.addr), PageOf(s.addr) + PageOf(s.size), |sections|)
    requires forall p :: PageIn(s, p) ==> Page(t0, p) == PHYS_SECTION_UNASSIGNED
    ensures PagesOk(t1, sections + [s])
  {
    PagesInSpace(s);
    var sections' := sections + [s];
    forall p | 0 <= p < Step(P_L2_LEVELS)
      ensures || Page(t1, p) == PHYS_SECTION_UNASSIGNED
              || (4 <= Page(t1, p) < |sections'| && Paged(sections'[Page(t1, p)]) && PageIn(sections'[Page(t1, p)], p))
    {
      assert Below(t1, Root, P_L2_LEVELS, p) == if PageIn(s, p) then |sections| else Page(t0, p);
    }
    forall k, p | 4 <= k < |sections'| && Paged(sections'[k]) && PageIn(sections'[k], p)
      ensures Page(t1, p) == k
    {
      if k < |sections| {
        assert SectionOk(sections[k], subs);
        PagesInSpace(sections[k]);
      }
      assert Below(t1, Root, P_L2_LEVELS, p) == if PageIn(s, p) then |sections| else Page(t0, p);
    }
  }

  predicate EmptySub(subs: seq<seq<nat>>, id: nat) {
    && id < |subs| && |subs[id]| == TARGET_PAGE_SIZE
    && forall o :: 0 <= o < TARGET_PAGE_SIZE ==> subs[id][o] == PHYS_SECTION_UNASSIGNED
  }

  /** Small sections stay found while a new section takes pages that were unassigned. */
  lemma SmallKept(t0: Tree, t1: Tree, sections: seq<Section>, subs: seq<seq<nat>>, subs': seq<seq<nat>>, s: Section)
    requires TableOk(sections, subs) && PagesOk(t0, sections) && SmallOk(t0, sections, subs)
    requires TableOk(sections + [s], subs') && subs <= subs' && Paged(s)
    requires s.mr.Subpage? ==> s.mr.id >= |subs| && EmptySub(subs', s.mr.id)
    requires SetBelow(t0, t1, Root, P_L2_LEVELS, 0, PageOf(s.addr), PageOf(s.addr) + PageOf(s.size), |sections|)
    requires forall p :: PageIn(s, p) ==> Page(t0, p) == PHYS_SECTION_UNASSIGNED
    ensures SmallOk(t1, sections + [s], subs')
  {
    var sections' := sections + [s];
    forall k, a | 4 <= k < |sections'| && !Paged(sections'[k]) && Contains(sections'[k], a)
      ensures SmallFound(t1, sections', subs', k, a)
    {
      assert SectionOk(sections[k], subs);
      assert SmallFound(t0, sections, subs, k, a);
      PageInSpace(a);
      assert sections[0] == DUMMY_SECTIONS[0];
      assert Below(t1, Root, P_L2_LEVELS, PageOf(a)) ==
        if PageIn(s, PageOf(a)) then |sections| else Page(t0, PageOf(a));
    }
    forall c, o | 4 <= c < |sections'| && sections'[c].mr.Subpage? && 0 <= o < TARGET_PAGE_SIZE
      ensures SlotOk(sections', subs', c, o)
    {
      if c < |sections| {
        assert SectionOk(sections[c], subs);
        assert SlotOk(sections, subs, c, o);
      }
    }
  }

  /** Registering a run of unassigned whole pages, or a container for one unassigned page. */
  lemma PagedAdd(t0: Tree, t1: Tree, sections: seq<Section>, subs: seq<seq<nat>>, subs': seq<seq<nat>>, s: Section)
    requires TableOk(sections, subs) && PagesOk(t0, sections) && SmallOk(t0, sections, subs)
    requires SectionOk(s, subs') && Paged(s) && subs <= subs'
    requires if s.mr.Subpage? then s.mr.id == |subs| == |subs'| - 1 && EmptySub(subs', s.mr.id) else subs' == subs
    requires SetBelow(t0, t1, Root, P_L2_LEVELS, 0, PageOf(s.addr), PageOf(s.addr) + PageOf(s.size), |sections|)
    requires forall p :: PageIn(s, p) ==> Page(t0, p) == PHYS_SECTION_UNASSIGNED
    ensures TableOk(sections + [s], subs') && PagesOk(t1, sections + [s]) && SmallOk(t1, sections + [s], subs')
  {
    TableAdd(sections, subs, subs', s);
    PagesAdd(t0, t1, sections, subs, s);
    SmallKept(t0, t1, sections, subs, subs', s);
  }

  /** Entries [from, to) of container `id` set to section v. */
  ghost predicate SubFilled(subs: seq<seq<nat>>, subs': seq<seq<nat>>, id: nat, from: nat, to: nat, v: nat) {
    && id < |subs| == |subs'| && |subs'[id]| == |subs[id]| == TARGET_PAGE_SIZE
    && (forall j :: 0 <= j < |subs| && j != id ==> subs'[j] == subs[j])
    && (forall o :: 0 <= o < TARGET_PAGE_SIZE ==> subs'[id][o] == if from <= o < to then v else subs[id][o])
  }

  lemma SamePage(s: Section, c: Section, a: nat)
    requires OffsetIn(s.addr) + s.size <= TARGET_PAGE_SIZE && Contains(s, a)
    requires OffsetIn(c.addr) == 0 && PageOf(c.addr) == PageOf(s.addr)
    ensures PageOf(a) == PageOf(s.addr) && OffsetIn(a) == OffsetIn(s.addr) + (a - s.addr) && a == c.addr + OffsetIn(a)
  {
    var p, o := PageOf(s.addr), OffsetIn(s.addr) + (a - s.addr);
    assert s.addr == p * TARGET_PAGE_SIZE + OffsetIn(s.addr);
    DivOfMultiple(p, TARGET_PAGE_SIZE, o);
    assert c.addr == TARGET_PAGE_SIZE * PageOf(c.addr);
  }

  lemma SmallStaysFound(t: Tree, sections: seq<Section>, subs: seq<seq<nat>>, subs': seq<seq<nat>>, s: Section, c: nat,
                        k: nat, a: nat)
    requires TableOk(sections, subs) && PagesOk(t, sections) && SmallOk(t, sections, subs)
    requires 4 <= c < |sections| && sections[c].mr.Subpage? && PageOf(sections[c].addr) == PageOf(s.addr)
    requires !Paged(s) && SectionOk(s, subs) && Fresh(sections, s)
    requires SubFilled(subs, subs', sections[c].mr.id, OffsetIn(s.addr), OffsetIn(s.addr) + s.size, |sections|)
    requires 4 <= k < |sections| && !Paged(sections[k]) && Contains(sections[k], a)
    ensures SmallFound(t, sections + [s], subs', k, a)
  {
    assert SectionOk(sections[k], subs) && SectionOk(sections[c], subs) && IsPiece(sections, k);
    assert SmallFound(t, sections, subs, k, a);
    var c', id := Page(t, PageOf(a)), sections[c].mr.id;
    PageInSpace(a);
    assert sections[0] == DUMMY_SECTIONS[0];
    if sections[c'].mr.id == id {
      assert c' == c;
      PageStart(sections[c], PageOf(a));
      ContainerAt(sections[c], a);
      SamePage(s, sections[c], s.addr);
      assert !(OffsetIn(s.addr) <= OffsetIn(a) < OffsetIn(s.addr) + s.size);
    }
  }

  lemma SlotStaysOk(sections: seq<Section>, subs: seq<seq<nat>>, subs': seq<seq<nat>>, s: Section, c: nat, d: nat,
                    o: nat)
    requires TableOk(sections, subs) && !Paged(s) && SectionOk(s, subs)
    requires 4 <= c < |sections| && sections[c].mr.Subpage? && PageOf(sections[c].addr) == PageOf(s.addr)
    requires SubFilled(subs, subs', sections[c].mr.id, OffsetIn(s.addr), OffsetIn(s.addr) + s.size, |sections|)
    requires 4 <= d < |sections| && sections[d].mr.Subpage? && o < TARGET_PAGE_SIZE
    requires sections[d].mr.id < |subs| && SlotOk(sections, subs, d, o)
    ensures SlotOk(sections + [s], subs', d, o)
  {
    assert SectionOk(sections[c], subs);
    if sections[d].mr.id == sections[c].mr.id && OffsetIn(s.addr) <= o < OffsetIn(s.addr) + s.size {
      assert d == c;
      SamePage(s, sections[c], s.addr);
    }
  }

  /** Registering a small section in the container of its page. */
  lemma SmallAdd(t: Tree, sections: seq<Section>, subs: seq<seq<nat>>, subs': seq<seq<nat>>, s: Section, c: nat)
    requires TableOk(sections, subs) && PagesOk(t, sections) && SmallOk(t, sections, subs)
    requires 4 <= c < |sections| && sections[c].mr.Subpage? && c == Page(t, PageOf(s.addr))
    requires !Paged(s) && SectionOk(s, subs) && Fresh(sections, s)
    requires SubFilled(subs, subs', sections[c].mr.id, OffsetIn(s.addr), OffsetIn(s.addr) + s.size, |sections|)
    ensures TableOk(sections + [s], subs') && PagesOk(t, sections + [s]) && SmallOk(t, sections + [s], subs')
    ensures PageOf(sections[c].addr) == PageOf(s.addr)
  {
    assert SectionOk(sections[c], subs);
    PageInSpace(s.addr);
    PageStart(sections[c], PageOf(s.addr));
    TableAdd(sections, subs, subs', s);
    var sections' := sections + [s];
    forall k, a | 4 <= k < |sections'| && !Paged(sections'[k]) && Contains(sections'[k], a)
      ensures SmallFound(t, sections', subs', k, a)
    {
      if k < |sections| {
        SmallStaysFound(t, sections, subs, subs', s, c, k, a);
      } else {
        SamePage(s, sections[c], a);
      }
    }
    forall d, o | 4 <= d < |sections'| && sections'[d].mr.Subpage? && 0 <= o < TARGET_PAGE_SIZE
      ensures SlotOk(sections', subs', d, o)
    {
      assert SectionOk(sections[d], subs) && SlotOk(sections, subs, d, o);
      SlotStaysOk(sections, subs, subs', s, c, d, o);
    }
  }

  /** Every container of a page other than p was made for some small section. */
  ghost predicate InhabitedExcept(sections: seq<Section>, p: nat) {
    forall c :: 4 <= c < |sections| && sections[c].mr.Subpage? && PageOf(sections[c].addr) != p ==>
      HasSmall(sections, PageOf(sections[c].addr))
  }

  lemma HasSmallKept(sections: seq<Section>, s: Section, p: nat)
    requires HasSmall(sections, p)
    ensures HasSmall(sections + [s], p)
  {
    var k :| 4 <= k < |sections| && !Paged(sections[k]) && PageOf(sections[k].addr) == p;
    assert (sections + [s])[k] == sections[k];
  }

  lemma InhabitedAdd(sections: seq<Section>, s: Section)
    requires |sections| >= 4 && !s.mr.Subpage?
    requires Inhabited(sections) || (!Paged(s) && InhabitedExcept(sections, PageOf(s.addr)))
    ensures Inhabited(sections + [s])
  {
    var sections' := sections + [s];
    forall c | 4 <= c < |sections'| && sections'[c].mr.Subpage? ensures HasSmall(sections', PageOf(sections'[c].addr)) {
      var p := PageOf(sections[c].addr);
      if HasSmall(sections, p) {
        HasSmallKept(sections, s, p);
      } else {
        assert sections'[|sections|] == s;
      }
    }
  }

  /** A page-aligned address starts a whole page of the space. */
  lemma ContainerPage(base: nat)
    requires OffsetIn(base) == 0 && base < ADDR_SPACE
    ensures PageOf(TARGET_PAGE_SIZE) == 1 && OffsetIn(TARGET_PAGE_SIZE) == 0
    ensures base + TARGET_PAGE_SIZE <= ADDR_SPACE && PageOf(base) + 1 <= Step(P_L2_LEVELS)
  {
    DivOfMultiple(1, TARGET_PAGE_SIZE, 0);
    assert base == PageOf(base) * TARGET_PAGE_SIZE;
    if PageOf(base) >= SPACE_PAGES {
      MulMonotone(SPACE_PAGES, PageOf(base), TARGET_PAGE_SIZE);
    } else {
      MulMonotone(PageOf(base), SPACE_PAGES, TARGET_PAGE_SIZE);
    }
    PageInSpace(base);
  }

  lemma BaseOf(a: nat)
    ensures OffsetIn(a) <= a
    ensures PageOf(a - OffsetIn(a)) == PageOf(a) && OffsetIn(a - OffsetIn(a)) == 0
  {
    assert a == PageOf(a) * TARGET_PAGE_SIZE + OffsetIn(a);
    DivOfMultiple(PageOf(a), TARGET_PAGE_SIZE, 0);
  }

  /** A fresh container is the only one without a small section. */
  lemma InhabitedBut(sections: seq<Section>, s: Section)
    requires Inhabited(sections) && |sections| >= 4
    ensures InhabitedExcept(sections + [s], PageOf(s.addr))
  {
    var sections' := sections + [s];
    forall d | 4 <= d < |sections'| && sections'[d].mr.Subpage? && PageOf(sections'[d].addr) != PageOf(s.addr)
      ensures HasSmall(sections', PageOf(sections'[d].addr))
    {
      HasSmallKept(sections, s, PageOf(sections[d].addr));
    }
  }

  lemma SmallSize(n: nat)
    requires 0 < n < TARGET_PAGE_SIZE
    ensures OffsetIn(n) == n
  {
    DivOfMultiple(0, TARGET_PAGE_SIZE, n);
  }

  lemma NextPage(a: nat)
    ensures OffsetIn(a + (TARGET_PAGE_SIZE - OffsetIn(a))) == 0
  {
    var p := PageOf(a);
    assert a == p * TARGET_PAGE_SIZE + OffsetIn(a);
    MulDistributes(p, 1, TARGET_PAGE_SIZE);
    DivOfMultiple(p + 1, TARGET_PAGE_SIZE, 0);
  }

  /** The whole pages at the front of an aligned run. */
  lemma WholePages(a: nat, n: nat)
    requires OffsetIn(a) == 0 && n >= TARGET_PAGE_SIZE
    ensures OffsetIn(n) <= n - TARGET_PAGE_SIZE
    ensures OffsetIn(n - OffsetIn(n)) == 0 && OffsetIn(a + (n - OffsetIn(n))) == 0
  {
    var p, q := PageOf(a), PageOf(n);
    assert a == p * TARGET_PAGE_SIZE && n == q * TARGET_PAGE_SIZE + OffsetIn(n);
    MulDistributes(p, q, TARGET_PAGE_SIZE);
    DivOfMultiple(q, TARGET_PAGE_SIZE, 0);
    DivOfMultiple(p + q, TARGET_PAGE_SIZE, 0);
    if q > 0 {
      MulMonotone(1, q, TARGET_PAGE_SIZE);
    }
  }

  lemma PagedNotEmpty(n: nat)
    requires OffsetIn(n) == 0 && 0 < n
    ensures 0 < PageOf(n)
  {
    assert n == PageOf(n) * TARGET_PAGE_SIZE;
  }

  lemma FreeRun(t: Tree, s: Section)
    requires Walkable(t, Root) && forall p :: PageIn(s, p) ==> Page(t, p) == PHYS_SECTION_UNASSIGNED
    ensures Free(t, Root, P_L2_LEVELS, PageOf(s.addr), PageOf(s.addr) + PageOf(s.size))
  {
    forall p | PageOf(s.addr) <= p < PageOf(s.addr) + PageOf(s.size)
      ensures Below(t, Root, P_L2_LEVELS, p) == PHYS_SECTION_UNASSIGNED
    {
      assert PageIn(s, p);
    }
  }
}
