/** Sections as added and the pieces they are cut into. */
module Cutting {
  import opened Radix
  import opened PageMap
  import opened Sections
  import opened Register

  /** The table gained exactly one piece, `s`, and possibly sub-page containers. */
  ghost predicate Extended(before: seq<Section>, after: seq<Section>, s: Section) {
    && before <= after && |before| < |after| && after[|after| - 1] == s && 4 <= |before|
    && forall k :: |before| <= k < |after| - 1 ==> after[k].mr.Subpage?
  }

  // ---- Where a section is cut ----

  /** End of the part in the section's first page, if it starts inside that page. */
  function HeadEnd(s: Section): (e: nat)
    ensures s.addr <= e <= s.addr + s.size
  {
    var left := TARGET_PAGE_SIZE - OffsetIn(s.addr);
    if OffsetIn(s.addr) == 0 then s.addr else if left < s.size then s.addr + left else s.addr + s.size
  }

  /** End of the run of whole pages. */
  function BodyEnd(s: Section): (e: nat)
    ensures HeadEnd(s) <= e <= s.addr + s.size
  {
    var rest := s.addr + s.size - HeadEnd(s);
    assert OffsetIn(rest) <= rest;
    HeadEnd(s) + (rest - OffsetIn(rest))
  }

  /** One of the parts before, in and behind the run of whole pages. */
  predicate IsPart(s: Section, from: nat, to: nat) {
    || (from == s.addr && to == HeadEnd(s))
    || (from == HeadEnd(s) && to == BodyEnd(s))
    || (from == BodyEnd(s) && to == s.addr + s.size)
  }

  predicate PieceOf(piece: Section, s: Section) {
    SameTranslation(piece, s) && IsPart(s, piece.addr, piece.addr + piece.size)
  }

  function PartOf(s: Section, from: nat, to: nat): Section
    requires s.addr <= from <= to
  {
    Section(s.mr, from, to - from, s.regionOffset + (from - s.addr))
  }

  /** The piece of the section that holds address a. */
  function PieceAt(s: Section, a: nat): (piece: Section)
    requires Contains(s, a)
    ensures Contains(piece, a) && PieceOf(piece, s)
  {
    if a < HeadEnd(s) then PartOf(s, s.addr, HeadEnd(s))
    else if a < BodyEnd(s) then PartOf(s, HeadEnd(s), BodyEnd(s))
    else PartOf(s, BodyEnd(s), s.addr + s.size)
  }

  lemma PieceDetermined(piece: Section, s: Section, a: nat)
    requires PieceOf(piece, s) && Contains(piece, a)
    ensures Contains(s, a) && piece == PieceAt(s, a)
  {
  }

  /** End of the first piece: of the page a section starts inside of, else of its last whole page, else
      of the section. */
  function FrontEnd(s: Section): nat {
    if OffsetIn(s.addr) != 0 then HeadEnd(s)
    else if s.size < TARGET_PAGE_SIZE then s.addr + s.size
    else s.addr + (s.size - OffsetIn(s.size))
  }

  lemma FrontStarts(s: Section, a: nat)
    requires Contains(s, a)
    ensures PieceAt(s, a).addr == s.addr <==> a < FrontEnd(s)
  {
    if OffsetIn(s.addr) == 0 && s.size < TARGET_PAGE_SIZE {
      assert OffsetIn(s.size) == s.size;
    }
  }

  /** Exactly the first piece of a region's front begins where the region does. */
  lemma FrontPiece(s: Section, a: nat)
    requires Contains(s, a)
    ensures PieceAt(s, a).regionOffset == 0 <==> s.regionOffset == 0 && a < FrontEnd(s)
  {
    FrontStarts(s, a);
  }

  lemma FrontOfFirstPage(s: Section)
    requires s.addr == 1 && TARGET_PAGE_SIZE <= s.size
    ensures FrontEnd(s) == TARGET_PAGE_SIZE
  {
  }

  // ---- Registering the pieces ----

  /** Some piece from index `from` on holds address a of section s at the offset s gives it. */
  ghost predicate Held(sections: seq<Section>, from: nat, s: Section, a: nat) {
    exists k: nat :: from <= k && IsPiece(sections, k) && Contains(sections[k], a) && SameTranslation(sections[k], s)
  }

  /** The pieces from index |before| on are the part of `s` below address `done`. */
  ghost predicate Cut(before: seq<Section>, sections: seq<Section>, s: Section, done: nat) {
    && 4 <= |before| && before <= sections
    && (forall k: nat :: |before| <= k && IsPiece(sections, k) ==>
          PieceOf(sections[k], s) && sections[k].addr + sections[k].size <= done)
    && (forall a :: s.addr <= a < done ==> Held(sections, |before|, s, a))
  }

  lemma CutStep(before: seq<Section>, mid: seq<Section>, after: seq<Section>, s: Section, now: Section)
    requires s.addr <= now.addr && Cut(before, mid, s, now.addr)
    requires Extended(mid, after, now) && !now.mr.Subpage? && PieceOf(now, s)
    ensures Cut(before, after, s, now.addr + now.size)
  {
    forall a | s.addr <= a < now.addr + now.size ensures Held(after, |before|, s, a) {
      if a < now.addr {
        assert Held(mid, |before|, s, a);
        var k: nat :| |before| <= k && IsPiece(mid, k) && Contains(mid[k], a) && SameTranslation(mid[k], s);
        assert IsPiece(after, k);
      } else {
        assert IsPiece(after, |after| - 1) && Contains(after[|after| - 1], a);
      }
    }
  }

  /** What is left of a fresh section stays fresh while its front is being registered. */
  lemma RestFresh(before: seq<Section>, sections: seq<Section>, s: Section, done: nat, now: Section)
    requires Cut(before, sections, s, done) && Fresh(before, s)
    requires done <= now.addr && s.addr <= now.addr && now.addr + now.size <= s.addr + s.size
    ensures Fresh(sections, now)
  {
    forall k: nat | IsPiece(sections, k) ensures Disjoint(sections[k], now) {
      if k < |before| {
        assert IsPiece(before, k);
      }
    }
  }

  /** The pieces of the table are exactly the sections added. */
  ghost predicate View(sections: seq<Section>, added: seq<Section>) {
    && (forall j, a :: 0 <= j < |added| && Contains(added[j], a) ==> Held(sections, 4, added[j], a))
    && (forall k: nat :: IsPiece(sections, k) ==> PieceOfAdded(sections[k], added))
  }

  ghost predicate PieceOfAdded(piece: Section, added: seq<Section>) {
    exists j :: 0 <= j < |added| && PieceOf(piece, added[j])
  }

  lemma ViewFresh(sections: seq<Section>, added: seq<Section>, s: Section)
    requires View(sections, added) && forall j :: 0 <= j < |added| ==> Disjoint(added[j], s)
    ensures Fresh(sections, s)
  {
    forall k: nat | IsPiece(sections, k) ensures Disjoint(sections[k], s) {
      assert PieceOfAdded(sections[k], added);
    }
  }

  lemma ViewAdd(before: seq<Section>, sections: seq<Section>, added: seq<Section>, s: Section)
    requires View(before, added) && Cut(before, sections, s, s.addr + s.size)
    ensures View(sections, added + [s])
  {
    var added' := added + [s];
    forall j, a | 0 <= j < |added'| && Contains(added'[j], a) ensures Held(sections, 4, added'[j], a) {
      if j < |added| {
        var k: nat :| 4 <= k && IsPiece(before, k) && Contains(before[k], a) && SameTranslation(before[k], added[j]);
        assert IsPiece(sections, k);
      } else {
        assert Held(sections, |before|, s, a);
        var k: nat :| |before| <= k && IsPiece(sections, k)
          && Contains(sections[k], a) && SameTranslation(sections[k], s);
      }
    }
    forall k: nat | IsPiece(sections, k) ensures PieceOfAdded(sections[k], added') {
      if k < |before| {
        assert IsPiece(before, k) && PieceOfAdded(before[k], added);
        var j :| 0 <= j < |added| && PieceOf(before[k], added[j]);
        assert added'[j] == added[j];
      } else {
        assert added'[|added|] == s && PieceOf(sections[k], s);
      }
    }
  }

  /** The answer a list scan over the sections as added would give for address a. */
  ghost predicate Answers(r: Section, added: seq<Section>, a: nat) {
    && (forall j :: 0 <= j < |added| && Contains(added[j], a) ==> r == PieceAt(added[j], a))
    && ((forall j :: 0 <= j < |added| ==> !Contains(added[j], a)) ==> r == DUMMY_SECTIONS[0])
  }

  ghost predicate PairwiseDisjoint(added: seq<Section>) {
    forall i, j :: 0 <= i < j < |added| ==> Disjoint(added[i], added[j])
  }

  lemma OnlyOne(added: seq<Section>, i: nat, j: nat, a: nat)
    requires PairwiseDisjoint(added) && i < |added| && j < |added|
    requires Contains(added[i], a) && Contains(added[j], a)
    ensures i == j
  {
  }

  lemma ExactAnswers(t: PageMap.Tree, sections: seq<Section>, subs: seq<seq<nat>>, added: seq<Section>, a: nat)
    requires ExactAt(t, sections, subs, a) && View(sections, added) && PairwiseDisjoint(added)
    ensures Lookup(t, sections, subs, a) < |sections|
    ensures Answers(sections[Lookup(t, sections, subs, a)], added, a)
  {
    var k := Lookup(t, sections, subs, a);
    assert sections[0] == DUMMY_SECTIONS[0];
    forall j | 0 <= j < |added| && Contains(added[j], a)
      ensures sections[k] == PieceAt(added[j], a)
    {
      assert Held(sections, 4, added[j], a);
      assert PieceOfAdded(sections[k], added);
      var i :| 0 <= i < |added| && PieceOf(sections[k], added[i]);
      PieceDetermined(sections[k], added[i], a);
      OnlyOne(added, i, j, a);
    }
    if forall j :: 0 <= j < |added| ==> !Contains(added[j], a) {
      if k != PHYS_SECTION_UNASSIGNED {
        assert PieceOfAdded(sections[k], added);
      }
    }
  }
}
