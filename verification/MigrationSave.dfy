/** `ram_find_and_save_block`: find the next dirty page from the cursor on and send it. */
module MigrationSave {
  import opened Values
  import opened Migration
  import opened MigrationOrder
  import opened MigrationScan

  function StartBlock(s: State): nat { if s.seen.Some? then s.seen.value else 0 }

  /** First page of the start block that the search looks at. */
  function StartPage(s: State): nat { if s.bulk && s.offset > 0 then s.offset + 1 else s.offset }

  /** The loop of the search, called in state s0, standing at page `offset` of `block`. */
  ghost predicate Searching(s0: State, s: State, block: nat, offset: nat, complete: bool) {
    && CursorOk(s0) && block < |BLOCKS| && offset <= BLOCKS[block].pages
    && (complete ==> s0.seen.Some? && block <= s0.seen.value)
    && (!complete ==> StartBlock(s0) <= block)
    && s.src == s0.src && s.log == s0.log && s.bitmap <= s0.bitmap && s.lost == s0.lost && s.base == s0.base
    && s.seen == s0.seen && s.offset == s0.offset && s.bulk == (s0.bulk && !complete)
    && Scanned(s.bitmap, StartBlock(s0), StartPage(s0), block, offset, complete)
    && (s0.bulk ==>
      s == s0.(bulk := !complete) && offset == if !complete && block == StartBlock(s0) then s0.offset else 0)
    && (s0.seen.None? ==> block == 0 && offset == 0)
  }

  lemma SearchStart(s0: State)
    requires CursorOk(s0)
    ensures Searching(s0, s0, StartBlock(s0), s0.offset, false)
  {
  }

  /** What one look at a block finds. */
  lemma Found(s0: State, s: State, block: nat, offset: nat, complete: bool)
    requires Searching(s0, s, block, offset, complete) && AheadMarked(s0)
    ensures s.bulk && offset > 0 ==> offset < BLOCKS[block].pages
    ensures var (s1, next) := FindAndReset(s, block, offset);
      && offset <= next <= BLOCKS[block].pages
      && Scanned(s.bitmap, StartBlock(s0), StartPage(s0), block, next, complete)
      && (next == BLOCKS[block].pages ==> s1 == s)
      && (next < BLOCKS[block].pages ==>
            var p := Page(block, next);
            p in s.bitmap && IsPage(p) && s1 == s.(bitmap := s.bitmap - {p}, dirtyPages := s.dirtyPages - 1))
  {
    var b0, lo := StartBlock(s0), StartPage(s0);
    var (s1, next) := FindAndReset(s, block, offset);
    if next < BLOCKS[block].pages {
      assert InBlock(block, Page(block, next));
    }
    ScannedOn(s.bitmap, b0, lo, block, offset, complete, next);
  }

  /** The search of a block ends inside it or at its end. */
  lemma FoundWithin(s0: State, s: State, block: nat, offset: nat, complete: bool)
    requires Searching(s0, s, block, offset, complete) && AheadMarked(s0)
    ensures s.bulk && offset > 0 ==> offset < BLOCKS[block].pages
    ensures FindAndReset(s, block, offset).1 <= BLOCKS[block].pages
    ensures FindAndReset(s, block, offset).0.bitmap <= s.bitmap
  {
    Found(s0, s, block, offset, complete);
  }

  lemma BlockOfMarked(bitmap: set<nat>, block: nat, b: nat, p: nat)
    requires b < |BLOCKS| && InBlock(b, p) && p in bitmap
    requires forall c :: 0 <= c < |BLOCKS| && c != block ==> BlockClean(bitmap, c)
    ensures b == block
  {
    assert p == Page(b, p - BLOCKS[b].first);
    assert b == block || BlockClean(bitmap, b);
  }

  /** Back at the start of the round: either nothing is marked any more, or the page under the
      cursor was the only one marked all along. */
  lemma RoundEnds(s0: State, s: State, block: nat, offset: nat, next: nat)
    requires Searching(s0, s, block, offset, true) && s0.seen == Some(block)
    requires s0.offset <= next <= BLOCKS[block].pages
    requires Scanned(s.bitmap, block, StartPage(s0), block, next, true)
    requires next < BLOCKS[block].pages ==> Page(block, next) in s.bitmap
    ensures next == BLOCKS[block].pages ==> AllClean(s.bitmap)
    ensures next < BLOCKS[block].pages ==> CursorPageOnly(s0) && next == s0.offset
  {
    if next == BLOCKS[block].pages {
      RoundDone(s.bitmap, block, StartPage(s0), next);
    } else {
      assert next < StartPage(s0);
      forall p: nat | IsPage(p) && p in s.bitmap ensures p == Page(block, next) {
        var b :| 0 <= b < |BLOCKS| && InBlock(b, p);
        assert p == Page(b, p - BLOCKS[b].first);
        BlockOfMarked(s.bitmap, block, b, p);
      }
    }
  }

  /** A page found before the round ends shows that the cursor page was not the only one. */
  lemma FoundAnother(s0: State, s: State, block: nat, offset: nat, complete: bool, next: nat)
    requires Searching(s0, s, block, offset, complete) && next < BLOCKS[block].pages
    requires next == FindAndReset(s, block, offset).1
    requires Page(block, next) in s.bitmap && IsPage(Page(block, next))
    requires complete && s0.seen == Some(block) ==> next < s0.offset
    ensures !CursorPageOnly(s0)
  {
    if s0.bulk && s0.seen.Some? && s0.offset > 0 {
      PagesDiffer(block, next, s0.seen.value, s0.offset);
    }
  }

  /** On to the next block, or round to the first one, which ends the bulk stage. */
  lemma NextBlock(s0: State, s: State, block: nat, offset: nat, complete: bool)
    requires Searching(s0, s, block, offset, complete)
    requires Scanned(s.bitmap, StartBlock(s0), StartPage(s0), block, BLOCKS[block].pages, complete)
    requires complete ==> s0.seen != Some(block)
    requires s0.seen.Some?
    ensures block + 1 < |BLOCKS| ==> Searching(s0, s, block + 1, 0, complete)
    ensures block + 1 == |BLOCKS| ==> !complete && Searching(s0, s.(bulk := false), 0, 0, true)
  {
    ScannedNextBlock(s.bitmap, StartBlock(s0), StartPage(s0), block, complete);
  }

  /** The first search starts on a marked page. */
  lemma FirstFindsAtOnce(s0: State, s: State, block: nat, offset: nat, complete: bool)
    requires Searching(s0, s, block, offset, complete) && AheadMarked(s0) && s0.seen.None?
    ensures FindAndReset(s, block, offset).1 < BLOCKS[block].pages
  {
    assert Page(0, 0) in s0.bitmap;
  }

  /** The cursor after a page was sent; in the bulk stage all later pages are still marked. */
  lemma CursorMoves(s0: State, s: State, t: State, block: nat, offset: nat, complete: bool, next: nat, last: bool)
    requires Searching(s0, s, block, offset, complete) && AheadMarked(s0) && Core(t, last)
    requires next == FindAndReset(s, block, offset).1 < BLOCKS[block].pages
    requires t.bitmap == s.bitmap - {Page(block, next)} && t.bulk == s.bulk
    ensures var t' := t.(seen := Some(block), offset := next); Inv(t', last) && Rested(t')
  {
    var t' := t.(seen := Some(block), offset := next);
    assert Core(t', last);
    if t.bulk {
      forall o | next < o < BLOCKS[block].pages ensures Page(block, o) in t.bitmap {
        assert Page(block, o) in s0.bitmap;
      }
      forall b, o | block < b < |BLOCKS| && 0 <= o < BLOCKS[b].pages ensures Page(b, o) in t.bitmap {
        assert Page(b, o) in s0.bitmap;
        PagesDiffer(b, o, block, next);
      }
    }
  }

  /** An unmodified page was skipped: the search goes on from it. */
  lemma SkipOn(s0: State, s: State, t: State, block: nat, offset: nat, complete: bool, next: nat)
    requires Searching(s0, s, block, offset, complete) && !s0.bulk && s0.seen.Some?
    requires next < BLOCKS[block].pages && Scanned(s.bitmap, StartBlock(s0), StartPage(s0), block, next, complete)
    requires t == s.(bitmap := t.bitmap, dirtyPages := t.dirtyPages) && t.bitmap <= s.bitmap
    ensures Searching(s0, t, block, next, complete)
  {
    ScannedLess(s.bitmap, t.bitmap, StartBlock(s0), StartPage(s0), block, next, complete);
  }

  /** A found page, whose bit was just cleared, is saved. */
  method SaveFound(ghost s: State, s1: State, p: nat, last: bool, got: Reads, memory: bool)
    returns (t: State, sent: bool)
    requires Core(s, last) && p in s.bitmap && IsPage(p) && ReadsOk(s, p, got)
    requires s1 == s.(bitmap := s.bitmap - {p}, dirtyPages := s.dirtyPages - 1)
    ensures Core(t, last) && SameSource(s1, t) && SameBut(s, t, {p})
    ensures if sent then OneMore(s.sent, t.sent, p) else t == s1 && !s.bulk && s.cache != map[]
  {
    ReadyToSave(s, p, last);
    t, sent := RamSavePage(s1, p, last, got, memory);
    PageDone(s, t, p, last);
  }

  /** At the destination only pages of the set changed. */
  ghost predicate SameBut(s: State, t: State, pages: set<nat>) {
    forall q :: q in s.dst && q !in pages ==> q in t.dst && t.dst[q] == s.dst[q]
  }

  /** How one turn of the search ends. */
  datatype Turn = Continue | RoundOver | PageSent

  /** The page lost by a search begun in state s: the lone cursor page. */
  ghost function Dropped(s: State): set<nat>
    requires CursorOk(s)
  {
    if CursorPageOnly(s) then {Page(s.seen.value, s.offset)} - s.log else {}
  }

  /** What a finished search leaves. */
  ghost predicate SearchResult(s0: State, s: State, sent: bool, last: bool) {
    && CursorOk(s0) && Inv(s, last) && Rested(s)
    && (!sent ==> AllClean(s.bitmap))
    && s.lost == s0.lost + Dropped(s0)
    && (CursorPageOnly(s0) ==> !sent && s.dst == s0.dst)
  }

  /** What one turn, made in state s at page `offset` of `block`, leaves in state t. */
  ghost predicate TurnOk(s0: State, s: State, block: nat, complete: bool, last: bool,
                         turn: Turn, t: State, block': nat, offset': nat, complete': bool, saved: set<nat>)
  {
    && t.src == s0.src && t.log == s0.log && t.base == s0.base && t.bitmap <= s.bitmap && SameBut(s, t, s.bitmap)
    && match turn
       case Continue =>
         && Searching(s0, t, block', offset', complete') && Core(t, last) && saved == s.bitmap - t.bitmap
         && (if complete' == complete then block' > block || (block' == block && t.bitmap < s.bitmap) else complete')
       case PageSent =>
         && CursorOk(s0) && !CursorPageOnly(s0) && Inv(t, last) && Rested(t) && t.lost == s0.lost
         && t.bitmap < s.bitmap && saved == s.bitmap - t.bitmap
       case RoundOver =>
         && SearchResult(s0, t, false, last) && saved == {}
         && (if CursorPageOnly(s0) then s.bitmap == s0.bitmap else t.bitmap == s.bitmap)
  }

  // ---- The bulk stage, as long as there are pages ahead ----

  /** The page after the cursor. */
  function NextPos(s: State): Option<Pos>
    requires CursorOk(s)
  {
    match s.seen
    case None => Some(Pos(0, 0))
    case Some(b) =>
      if s.offset + 1 < BLOCKS[b].pages then Some(Pos(b, s.offset + 1))
      else if b + 1 < |BLOCKS| then Some(Pos(b + 1, 0))
      else None
  }

  /** A bulk search with a page ahead, which has come to nothing before it. */
  ghost predicate OnTrack(s0: State, s: State, block: nat, offset: nat, complete: bool) {
    && CursorOk(s0) && s0.bulk && Rested(s0) && NextPos(s0).Some? && s == s0 && !complete
    && ((block == StartBlock(s0) && offset == s0.offset)
        || (offset == 0 && block == StartBlock(s0) + 1 && NextPos(s0) == Some(Pos(block, 0))))
  }

  /** Such a search sends the page ahead, and only that. */
  ghost predicate BulkSent(s0: State, t: State)
    requires CursorOk(s0) && NextPos(s0).Some?
  {
    var next := NextPos(s0).value;
    && t.bulk && t.seen == Some(next.block) && t.offset == next.offset && next.block < |BLOCKS|
    && next.offset < BLOCKS[next.block].pages && Page(next.block, next.offset) in s0.bitmap
    && t.bitmap == s0.bitmap - {Page(next.block, next.offset)}
  }

  ghost predicate StaysOnTrack(s0: State, s: State, block: nat, offset: nat, complete: bool,
                               turn: Turn, t: State, block': nat, offset': nat, complete': bool)
  {
    OnTrack(s0, s, block, offset, complete) ==>
      match turn
      case Continue => OnTrack(s0, t, block', offset', complete')
      case PageSent => BulkSent(s0, t)
      case RoundOver => false
  }

  /** What a bulk search finds next is the page after the cursor, or the end of the cursor's block. */
  lemma OnTrackFinds(s0: State, block: nat, offset: nat)
    requires CursorOk(s0) && AheadMarked(s0) && OnTrack(s0, s0, block, offset, false) && block < |BLOCKS|
    requires s0.bulk && offset > 0 ==> offset < BLOCKS[block].pages
    requires offset <= BLOCKS[block].pages
    ensures var next := FindAndReset(s0, block, offset).1;
      && (next < BLOCKS[block].pages ==> NextPos(s0) == Some(Pos(block, next)))
      && (next >= BLOCKS[block].pages ==> block == StartBlock(s0) && NextPos(s0) == Some(Pos(block + 1, 0)))
  {
    if s0.seen.None? {
      assert Page(0, 0) in s0.bitmap;
    } else if block == s0.seen.value {
      if offset == 0 && 1 < BLOCKS[block].pages {
        assert Page(block, 1) in s0.bitmap && Page(block, 0) !in s0.bitmap;
      }
    } else {
      assert Page(block, 0) in s0.bitmap;
    }
  }

  /** The state at the end of a round. */
  function RoundOverState(s: State, block: nat, next: nat): State
    requires block < |BLOCKS|
  {
    var s' := s.(seen := Some(block), offset := next);
    if next < BLOCKS[block].pages && Page(block, next) !in s.log then s'.(lost := s.lost + {Page(block, next)}) else s'
  }

  lemma NothingLeft(s0: State, s: State)
    requires CursorOk(s0) && AllClean(s.bitmap) && (s0.bulk ==> s.bitmap == s0.bitmap)
    ensures !CursorPageOnly(s0)
  {
    if s0.bulk && s0.seen.Some? {
      assert BlockClean(s.bitmap, s0.seen.value);
    }
  }

  lemma NoneMarked(bitmap: set<nat>)
    requires forall p: nat :: IsPage(p) ==> p !in bitmap
    ensures AllClean(bitmap)
  {
    forall b, o | 0 <= b < |BLOCKS| && 0 <= o < BLOCKS[b].pages ensures Page(b, o) !in bitmap {
      assert InBlock(b, Page(b, o));
    }
  }

  lemma LoneCleared(s: State, s1: State, block: nat, next: nat, last: bool)
    requires block < |BLOCKS| && next < BLOCKS[block].pages && Page(block, next) in s.bitmap && Core(s, last)
    requires s1 == s.(bitmap := s.bitmap - {Page(block, next)}, dirtyPages := s.dirtyPages - 1)
    ensures Core(RoundOverState(s1, block, next), last)
  {
    assert InBlock(block, Page(block, next));
    MarkedLess(s.bitmap, Page(block, next));
    SameData(s, RoundOverState(s1, block, next));
    LoneTracked(s, RoundOverState(s1, block, next), Page(block, next), last);
  }

  lemma LoneTracked(s: State, t: State, p: nat, last: bool)
    requires Tracked(s) && GapsMarked(s) && CacheOk(s, last) && IsPage(p) && t.bitmap == s.bitmap - {p}
    requires t.src == s.src && t.dst == s.dst && t.cache == s.cache && t.log == s.log
    requires t.lost == if p in s.log then s.lost else s.lost + {p}
    ensures Tracked(t) && GapsMarked(t) && CacheOk(t, last)
  {
  }

  /** The lone cursor page was cleared: nothing is marked any more. */
  lemma LoneAllClean(s0: State, s: State, s1: State, p: nat)
    requires CursorOk(s0) && CursorPageOnly(s0) && p == Page(s0.seen.value, s0.offset)
    requires s.bitmap == s0.bitmap && s1.bitmap == s.bitmap - {p}
    ensures AllClean(s1.bitmap)
  {
    NoneMarked(s1.bitmap);
  }

  /** The end of the round: nothing found, or the lone cursor page cleared. */
  lemma RoundOverResult(s0: State, s: State, block: nat, offset: nat, last: bool)
    requires Inv(s0, last) && Searching(s0, s, block, offset, true) && Core(s, last) && s0.seen == Some(block)
    requires !(s.bulk && offset > 0) && s0.offset <= FindAndReset(s, block, offset).1
    ensures var (s1, next) := FindAndReset(s, block, offset);
      && SearchResult(s0, RoundOverState(s1, block, next), false, last)
      && (if CursorPageOnly(s0) then s.bitmap == s0.bitmap else s1.bitmap == s.bitmap)
  {
    Found(s0, s, block, offset, true);
    var (s1, next) := FindAndReset(s, block, offset);
    RoundEnds(s0, s, block, offset, next);
    if next == BLOCKS[block].pages {
      NothingLeft(s0, s);
      NothingFound(s0, s, block, last);
    } else {
      LoneCleared(s, s1, block, next, last);
      LoneAllClean(s0, s, s1, Page(block, next));
      LoneFound(s0, s, s1, block, next, last);
    }
  }

  /** The invariant of the contents does not look at the cursor. */
  lemma CoreAnywhere(s: State, t: State, last: bool)
    requires Core(s, last) && t == s.(seen := t.seen, offset := t.offset)
    ensures Core(t, last)
  {
  }

  lemma NothingFound(s0: State, s: State, block: nat, last: bool)
    requires CursorOk(s0) && Core(s, last) && !s.bulk && s0.seen == Some(block)
    requires s.lost == s0.lost && !CursorPageOnly(s0) && AllClean(s.bitmap)
    ensures SearchResult(s0, RoundOverState(s, block, BLOCKS[block].pages), false, last)
  {
    CoreAnywhere(s, RoundOverState(s, block, BLOCKS[block].pages), last);
  }

  lemma LoneFound(s0: State, s: State, s1: State, block: nat, next: nat, last: bool)
    requires CursorOk(s0) && CursorPageOnly(s0) && s0.seen == Some(block) && s0.offset == next
    requires s.lost == s0.lost && s.dst == s0.dst && s.log == s0.log && !s.bulk && AllClean(s1.bitmap)
    requires s1 == s.(bitmap := s.bitmap - {Page(block, next)}, dirtyPages := s.dirtyPages - 1)
    requires Core(RoundOverState(s1, block, next), last)
    ensures SearchResult(s0, RoundOverState(s1, block, next), false, last)
  {
  }

  lemma RoundOverTurn(s0: State, s: State, block: nat, offset: nat, last: bool)
    requires Inv(s0, last) && Searching(s0, s, block, offset, true) && Core(s, last) && s0.seen == Some(block)
    requires !(s.bulk && offset > 0) && s0.offset <= FindAndReset(s, block, offset).1
    ensures var (s1, next) := FindAndReset(s, block, offset);
      TurnOk(s0, s, block, true, last, RoundOver, RoundOverState(s1, block, next), block, next, true, {})
  {
    RoundOverResult(s0, s, block, offset, last);
  }

  /** A block searched to its end: on to the next one, or round to the first. */
  method LeaveBlock(s0: State, s: State, block: nat, offset: nat, complete: bool, last: bool)
    returns (t: State, block': nat, complete': bool)
    requires Inv(s0, last) && Searching(s0, s, block, offset, complete) && Core(s, last)
    requires s.bulk && offset > 0 ==> offset < BLOCKS[block].pages
    requires FindAndReset(s, block, offset).1 == BLOCKS[block].pages
    requires complete && s0.seen == Some(block) ==> BLOCKS[block].pages < s0.offset
    ensures TurnOk(s0, s, block, complete, last, Continue, t, block', 0, complete', {})
    ensures block + 1 < |BLOCKS| ==> t == s && block' == block + 1 && complete' == complete
    ensures block + 1 == |BLOCKS| ==> t == s.(bulk := false) && block' == 0 && complete'
  {
    Found(s0, s, block, offset, complete);
    if s0.seen.None? {
      FirstFindsAtOnce(s0, s, block, offset, complete);
    }
    NextBlock(s0, s, block, offset, complete);
    BulkOver(s, last);
    t, block', complete' := s, block + 1, complete;
    if block' == |BLOCKS| {
      t, block', complete' := s.(bulk := false), 0, true;
    }
    Unchanged(s0, s, t, block, complete, last, block', complete');
  }

  lemma BulkOver(s: State, last: bool)
    requires Core(s, last)
    ensures Core(s.(bulk := false), last)
  {
  }

  /** A turn that only moves on. */
  lemma Unchanged(s0: State, s: State, t: State, block: nat, complete: bool, last: bool, block': nat, complete': bool)
    requires t == s.(bulk := t.bulk) && Searching(s0, t, block', 0, complete') && Core(t, last)
    requires if complete' == complete then block' > block else complete'
    ensures TurnOk(s0, s, block, complete, last, Continue, t, block', 0, complete', {})
  {
  }

  lemma SentTurn(s0: State, s: State, t: State, block: nat, offset: nat, complete: bool, next: nat, last: bool)
    requires Searching(s0, s, block, offset, complete) && AheadMarked(s0) && Core(t, last) && !CursorPageOnly(s0)
    requires next == FindAndReset(s, block, offset).1 < BLOCKS[block].pages && Page(block, next) in s.bitmap
    requires SameSource(s.(bitmap := s.bitmap - {Page(block, next)}, dirtyPages := s.dirtyPages - 1), t)
    requires SameBut(s, t, {Page(block, next)})
    ensures TurnOk(s0, s, block, complete, last, PageSent, t.(seen := Some(block), offset := next),
                   block, next, complete, {Page(block, next)})
  {
    CursorMoves(s0, s, t, block, offset, complete, next, last);
  }

  lemma SkippedTurn(s0: State, s: State, t: State, block: nat, offset: nat, complete: bool, next: nat, last: bool)
    requires Searching(s0, s, block, offset, complete) && !s0.bulk && s0.seen.Some? && Core(t, last)
    requires next < BLOCKS[block].pages && Scanned(s.bitmap, StartBlock(s0), StartPage(s0), block, next, complete)
    requires t == s.(bitmap := s.bitmap - {Page(block, next)}, dirtyPages := s.dirtyPages - 1)
    requires Page(block, next) in s.bitmap
    ensures TurnOk(s0, s, block, complete, last, Continue, t, block, next, complete, {Page(block, next)})
  {
    SkipOn(s0, s, t, block, offset, complete, next);
  }

  /** Of the state s, page `next` of `block` was sent, and the cursor moved to it. */
  ghost predicate SentFrom(s: State, t: State, block: nat, next: nat)
    requires block < |BLOCKS|
  {
    && t.seen == Some(block) && t.offset == next
    && SameBut(s, t, {Page(block, next)}) && OneMore(s.sent, t.sent, Page(block, next))
  }

  /** A page was found before the round ended: it is saved, and if it was sent the search is over. */
  method SaveAndMove(s0: State, s: State, block: nat, offset: nat, complete: bool, last: bool,
                     s1: State, next: nat, got: Reads, memory: bool)
    returns (t: State, turn: Turn)
    requires Inv(s0, last) && Searching(s0, s, block, offset, complete) && Core(s, last)
    requires s.bulk && offset > 0 ==> offset < BLOCKS[block].pages
    requires (s1, next) == FindAndReset(s, block, offset) && next < BLOCKS[block].pages
    requires complete && s0.seen == Some(block) ==> next < s0.offset
    requires ReadsOk(s0, Page(block, next), got)
    ensures TurnOk(s0, s, block, complete, last, turn, t, block, next, complete, {Page(block, next)})
    ensures Page(block, next) in s.bitmap && t.bitmap == s.bitmap - {Page(block, next)} && turn != RoundOver
    ensures s.bulk ==> turn == PageSent && t.bulk
    ensures if turn == PageSent then SentFrom(s, t, block, next) else t == s1
  {
    Found(s0, s, block, offset, complete);
    FoundAnother(s0, s, block, offset, complete, next);
    var sent;
    t, sent := SaveFound(s, s1, Page(block, next), last, got, memory);
    if sent {
      SentTurn(s0, s, t, block, offset, complete, next, last);
      return t.(seen := Some(block), offset := next), PageSent;
    }
    SkippedTurn(s0, s, t, block, offset, complete, next, last);
    turn := Continue;
  }

  /** What a turn does to the bulk stage: it goes on to the next block, or sends what it found. */
  ghost predicate BulkTurn(s: State, block: nat, next: nat, complete: bool,
                           turn: Turn, t: State, block': nat, offset': nat, complete': bool)
    requires block < |BLOCKS|
  {
    && (turn == RoundOver ==> complete)
    && (turn != RoundOver && next >= BLOCKS[block].pages ==>
          && turn == Continue && offset' == 0
          && (block + 1 < |BLOCKS| ==> t == s && block' == block + 1 && complete' == complete))
    && (turn != RoundOver && next < BLOCKS[block].pages && s.bulk ==>
          && turn == PageSent && t.bulk && t.seen == Some(block) && t.offset == next
          && Page(block, next) in s.bitmap && t.bitmap == s.bitmap - {Page(block, next)})
  }

  lemma TrackKept(s0: State, s: State, block: nat, offset: nat, complete: bool,
                  turn: Turn, t: State, block': nat, offset': nat, complete': bool)
    requires CursorOk(s0) && AheadMarked(s0) && block < |BLOCKS| && offset <= BLOCKS[block].pages
    requires s.bulk && offset > 0 ==> offset < BLOCKS[block].pages
    requires BulkTurn(s, block, FindAndReset(s, block, offset).1, complete, turn, t, block', offset', complete')
    ensures StaysOnTrack(s0, s, block, offset, complete, turn, t, block', offset', complete')
  {
    if OnTrack(s0, s, block, offset, complete) {
      OnTrackFinds(s0, block, offset);
    }
  }

  // ---- Which page is sent ----

  function Start(s: State): Pos { Pos(StartBlock(s), StartPage(s)) }

  /** A search that has sent nothing yet: it cleared marks only up to where it stands. */
  ghost predicate NothingSent(s0: State, s: State, block: nat, offset: nat, complete: bool) {
    && s.dst == s0.dst && s.sent == s0.sent
    && (!complete && block == StartBlock(s0) ==> s0.offset <= offset)
    && ClearedWithin(Start(s0), s0.bitmap, s.bitmap, block, offset, complete)
  }

  /** A search that sent a page: the cursor is on it, and the search cleared exactly the marks up to it. The
      page is the only one that changed at the destination, by one record. */
  ghost predicate SentOne(s0: State, s: State) {
    && s.seen.Some? && StoppedAt(Start(s0), s0.bitmap, s.bitmap, Pos(s.seen.value, s.offset))
    && SameBut(s0, s, {Page(s.seen.value, s.offset)}) && OneMore(s0.sent, s.sent, Page(s.seen.value, s.offset))
  }

  /** A search that sent nothing: the cursor is behind its block, or stays on the lone page. */
  ghost predicate SentNone(s0: State, s: State)
    requires CursorOk(s0)
  {
    && s.dst == s0.dst && s.sent == s0.sent && s.seen == s0.seen && s0.seen.Some?
    && s.offset == if CursorPageOnly(s0) then s0.offset else BLOCKS[s0.seen.value].pages
  }

  /** What a turn sends. */
  ghost predicate SendsInOrder(s0: State, turn: Turn, t: State, block: nat, offset: nat, complete: bool)
    requires CursorOk(s0)
  {
    match turn
    case Continue => NothingSent(s0, t, block, offset, complete)
    case PageSent => SentOne(s0, t)
    case RoundOver => SentNone(s0, t)
  }

  lemma SkipInOrder(s0: State, s: State, block: nat, offset: nat, complete: bool)
    requires Searching(s0, s, block, offset, complete) && AheadMarked(s0) && !s.bulk
    requires NothingSent(s0, s, block, offset, complete) && FindAndReset(s, block, offset).1 < BLOCKS[block].pages
    ensures var (t, next) := FindAndReset(s, block, offset); NothingSent(s0, t, block, next, complete)
  {
    Found(s0, s, block, offset, complete);
    var (t, next) := FindAndReset(s, block, offset);
    forall x | IsPos(x) && PageAt(x) in s0.bitmap && PageAt(x) !in t.bitmap
      ensures Passed(Start(s0), block, next + 1, complete, x)
    {
      if x != Pos(block, next) {
        PagesDiffer(x.block, x.offset, block, next);
      }
    }
  }

  lemma LeaveInOrder(s0: State, s: State, t: State, block: nat, offset: nat, complete: bool)
    requires Searching(s0, s, block, offset, complete) && NothingSent(s0, s, block, offset, complete)
    requires t == s.(bulk := t.bulk) && (complete ==> s0.seen != Some(block))
    ensures NothingSent(s0, t, block + 1, 0, complete)
    ensures block + 1 == |BLOCKS| ==> NothingSent(s0, t, 0, 0, true)
  {
  }

  lemma SendInOrder(s0: State, s: State, t: State, block: nat, offset: nat, complete: bool)
    requires Searching(s0, s, block, offset, complete) && AheadMarked(s0)
    requires NothingSent(s0, s, block, offset, complete) && FindAndReset(s, block, offset).1 < BLOCKS[block].pages
    requires var next := FindAndReset(s, block, offset).1;
      && (complete && s0.seen == Some(block) ==> next < s0.offset)
      && t.bitmap == s.bitmap - {Page(block, next)} && SentFrom(s, t, block, next)
    ensures SentOne(s0, t)
  {
    Found(s0, s, block, offset, complete);
    var next := FindAndReset(s, block, offset).1;
    assert ClearedWithin(Start(s0), s0.bitmap, s.bitmap, block, next, complete);
    Stops(Start(s0), s0.bitmap, s.bitmap, t.bitmap, block, next, complete);
  }

  lemma EndInOrder(s0: State, s: State, block: nat, offset: nat)
    requires CursorOk(s0) && AheadMarked(s0) && Searching(s0, s, block, offset, true) && s0.seen == Some(block)
    requires NothingSent(s0, s, block, offset, true) && s0.offset <= FindAndReset(s, block, offset).1
    ensures var (s1, next) := FindAndReset(s, block, offset); SentNone(s0, RoundOverState(s1, block, next))
  {
    Found(s0, s, block, offset, true);
    var next := FindAndReset(s, block, offset).1;
    RoundEnds(s0, s, block, offset, next);
    if next == BLOCKS[block].pages {
      NothingLeft(s0, s);
    }
  }

  /** What a turn did, by where the search of the block ended. */
  ghost predicate TurnIs(s: State, block: nat, s1: State, next: nat, complete: bool,
                         turn: Turn, t: State, block': nat, offset': nat, complete': bool)
    requires block < |BLOCKS|
  {
    match turn
    case RoundOver => complete && t == RoundOverState(s1, block, next)
    case PageSent =>
      next < BLOCKS[block].pages && t.bitmap == s.bitmap - {Page(block, next)} && SentFrom(s, t, block, next)
    case Continue =>
      if next < BLOCKS[block].pages then !s.bulk && t == s1 && (block', offset', complete') == (block, next, complete)
      else if block + 1 < |BLOCKS| then t == s && (block', offset', complete') == (block + 1, 0, complete)
      else t == s.(bulk := false) && (block', offset', complete') == (0, 0, true)
  }

  lemma TurnInOrder(s0: State, s: State, block: nat, offset: nat, complete: bool,
                    turn: Turn, t: State, block': nat, offset': nat, complete': bool)
    requires Searching(s0, s, block, offset, complete) && AheadMarked(s0)
    requires s.bulk && offset > 0 ==> offset < BLOCKS[block].pages
    requires var (s1, next) := FindAndReset(s, block, offset);
      && TurnIs(s, block, s1, next, complete, turn, t, block', offset', complete')
      && (turn == RoundOver <==> complete && s0.seen == Some(block) && s0.offset <= next)
    ensures NothingSent(s0, s, block, offset, complete) ==> SendsInOrder(s0, turn, t, block', offset', complete')
  {
    if NothingSent(s0, s, block, offset, complete) {
      match turn
      case RoundOver => EndInOrder(s0, s, block, offset);
      case PageSent => SendInOrder(s0, s, t, block, offset, complete);
      case Continue =>
        if FindAndReset(s, block, offset).1 < BLOCKS[block].pages {
          SkipInOrder(s0, s, block, offset, complete);
        } else {
          LeaveInOrder(s0, s, t, block, offset, complete);
        }
    }
  }

  /** One turn of the loop of the search. */
  method SearchTurn(s0: State, s: State, block: nat, offset: nat, complete: bool, last: bool,
                    got: nat -> Reads, memory: nat -> bool)
    returns (t: State, block': nat, offset': nat, complete': bool, turn: Turn, ghost saved: set<nat>)
    requires Inv(s0, last) && forall p: nat :: IsPage(p) ==> ReadsOk(s0, p, got(p))
    requires Searching(s0, s, block, offset, complete) && Core(s, last)
    requires s.bulk && offset > 0 ==> offset < BLOCKS[block].pages
    ensures TurnOk(s0, s, block, complete, last, turn, t, block', offset', complete', saved)
    ensures var (s1, next) := FindAndReset(s, block, offset);
      && BulkTurn(s, block, next, complete, turn, t, block', offset', complete')
      && TurnIs(s, block, s1, next, complete, turn, t, block', offset', complete')
      && (turn == RoundOver <==> complete && s0.seen == Some(block) && s0.offset <= next)
  {
    block', offset', complete', saved := block, offset, complete, {};
    FoundWithin(s0, s, block, offset, complete);
    var (s1, next) := FindAndReset(s, block, offset);
    if complete && s0.seen == Some(block) && next >= s0.offset {
      RoundOverTurn(s0, s, block, offset, last);
      t, offset', turn := RoundOverState(s1, block, next), next, RoundOver;
    } else if next >= BLOCKS[block].pages {
      t, block', complete' := LeaveBlock(s0, s, block, offset, complete, last);
      offset', turn := 0, Continue;
    } else {
      var p := Page(block, next);
      assert InBlock(block, p);
      offset', saved := next, {p};
      t, turn := SaveAndMove(s0, s, block, offset, complete, last, s1, next, got(p), memory(p));
    }
  }

  /** The state after any number of turns, the last of which ended with `turn`. */
  ghost predicate SoFar(s0: State, last: bool, turn: Turn, s: State, block: nat, offset: nat, complete: bool,
                        saved: set<nat>) {
    && s.src == s0.src && s.log == s0.log && s.base == s0.base && s.bitmap <= s0.bitmap && SameBut(s0, s, s0.bitmap)
    && match turn
       case Continue =>
         Searching(s0, s, block, offset, complete) && Core(s, last) && saved == s0.bitmap - s.bitmap
       case PageSent =>
         && CursorOk(s0) && !CursorPageOnly(s0) && Inv(s, last) && Rested(s) && s.lost == s0.lost
         && s.bitmap < s0.bitmap && saved == s0.bitmap - s.bitmap
       case RoundOver =>
         SearchResult(s0, s, false, last) && saved == if CursorPageOnly(s0) then {} else s0.bitmap - s.bitmap
  }

  lemma AnotherTurn(s0: State, last: bool, s: State, block: nat, offset: nat, complete: bool, saved: set<nat>,
                    turn: Turn, t: State, block': nat, offset': nat, complete': bool, more: set<nat>)
    requires SoFar(s0, last, Continue, s, block, offset, complete, saved)
    requires TurnOk(s0, s, block, complete, last, turn, t, block', offset', complete', more)
    ensures SoFar(s0, last, turn, t, block', offset', complete', saved + more)
  {
  }

  /** A bulk search with a page ahead is on its way to it or has sent it. */
  ghost predicate BulkSoFar(s0: State, turn: Turn, s: State, block: nat, offset: nat, complete: bool)
    requires CursorOk(s0)
  {
    s0.bulk && Rested(s0) && NextPos(s0).Some? ==>
      if turn == Continue then OnTrack(s0, s, block, offset, complete) else turn == PageSent && BulkSent(s0, s)
  }

  lemma SoFarStart(s0: State, last: bool)
    requires Inv(s0, last)
    ensures StartBlock(s0) < |BLOCKS| && SoFar(s0, last, Continue, s0, StartBlock(s0), s0.offset, false, {})
    ensures BulkSoFar(s0, Continue, s0, StartBlock(s0), s0.offset, false)
    ensures SendsInOrder(s0, Continue, s0, StartBlock(s0), s0.offset, false)
  {
    SearchStart(s0);
  }

  /** What the turns so far leave, as a function of where the search stands: it keeps the loop below from
      looking into `SoFar`. */
  type Left = (Turn, State, nat, nat, bool, set<nat>) -> bool

  ghost predicate LeavesSoFar(left: Left, s0: State, last: bool)
    requires CursorOk(s0)
  {
    forall turn: Turn, s: State, block: nat, offset: nat, complete: bool, saved: set<nat>
      {:trigger SoFar(s0, last, turn, s, block, offset, complete, saved)} ::
      left(turn, s, block, offset, complete, saved) <==>
      && SoFar(s0, last, turn, s, block, offset, complete, saved) && BulkSoFar(s0, turn, s, block, offset, complete)
      && SendsInOrder(s0, turn, s, block, offset, complete)
  }

  method NextSearch(s0: State, s: State, block: nat, offset: nat, complete: bool, last: bool,
                    got: nat -> Reads, memory: nat -> bool, ghost saved: set<nat>, ghost left: Left)
    returns (t: State, block': nat, offset': nat, complete': bool, turn: Turn, ghost saved': set<nat>)
    requires Inv(s0, last) && forall p: nat :: IsPage(p) ==> ReadsOk(s0, p, got(p))
    requires LeavesSoFar(left, s0, last) && left(Continue, s, block, offset, complete, saved)
    ensures left(turn, t, block', offset', complete', saved')
    ensures turn == Continue ==> block' < |BLOCKS|
    ensures turn == Continue && complete' == complete ==> block' > block || (block' == block && t.bitmap < s.bitmap)
    ensures turn == Continue && complete' != complete ==> complete'
  {
    assert SoFar(s0, last, Continue, s, block, offset, complete, saved);
    ghost var more;
    FoundWithin(s0, s, block, offset, complete);
    t, block', offset', complete', turn, more := SearchTurn(s0, s, block, offset, complete, last, got, memory);
    TrackKept(s0, s, block, offset, complete, turn, t, block', offset', complete');
    TurnInOrder(s0, s, block, offset, complete, turn, t, block', offset', complete');
    AnotherTurn(s0, last, s, block, offset, complete, saved, turn, t, block', offset', complete', more);
    saved' := saved + more;
  }

  /** `ram_find_and_save_block`. `got` and `memory` say what the reads of each page see and whether
      the cache can get memory; `saved` collects the pages passed to `ram_save_page`. Unless the
      cursor page is the only one marked in the bulk stage, every page whose bit is cleared is
      saved; in that one state the page's bit is cleared and the page is not sent. Nothing is sent
      only when nothing is left marked. Otherwise one page is sent, and the marks cleared are those of
      the pages from the cursor up to it, in the order of the search; the others of these were in the
      cache unmodified. */
  method FindAndSaveBlock(s0: State, last: bool, got: nat -> Reads, memory: nat -> bool)
    returns (s: State, sent: bool, ghost saved: set<nat>)
    requires Inv(s0, last) && forall p: nat :: IsPage(p) ==> ReadsOk(s0, p, got(p))
    ensures s.src == s0.src && s.log == s0.log && s.base == s0.base && s.bitmap <= s0.bitmap
    ensures SearchResult(s0, s, sent, last) && SameBut(s0, s, s0.bitmap)
    ensures saved == if CursorPageOnly(s0) then {} else s0.bitmap - s.bitmap
    ensures sent ==> s.bitmap < s0.bitmap
    ensures s0.bulk && Rested(s0) && NextPos(s0).Some? ==> sent && BulkSent(s0, s)
    ensures if sent then SentOne(s0, s) else SentNone(s0, s)
  {
    ghost var left: Left := (turn: Turn, s: State, block: nat, offset: nat, complete: bool, saved: set<nat>) =>
      && SoFar(s0, last, turn, s, block, offset, complete, saved) && BulkSoFar(s0, turn, s, block, offset, complete)
      && SendsInOrder(s0, turn, s, block, offset, complete);
    SoFarStart(s0, last);
    ghost var block, offset, complete;
    var turn;
    s, turn, block, offset, complete, saved := SearchLoop(s0, last, got, memory, left);
    assert SoFar(s0, last, turn, s, block, offset, complete, saved);
    sent := turn == PageSent;
  }

  method SearchLoop(s0: State, last: bool, got: nat -> Reads, memory: nat -> bool, ghost left: Left)
    returns (s: State, turn: Turn, block: nat, offset: nat, complete: bool, ghost saved: set<nat>)
    requires Inv(s0, last) && forall p: nat :: IsPage(p) ==> ReadsOk(s0, p, got(p))
    requires LeavesSoFar(left, s0, last) && left(Continue, s0, StartBlock(s0), s0.offset, false, {})
    requires StartBlock(s0) < |BLOCKS|
    ensures turn != Continue && left(turn, s, block, offset, complete, saved)
  {
    s, turn, block, offset, complete, saved := s0, Continue, StartBlock(s0), s0.offset, false, {};
    while turn == Continue
      invariant left(turn, s, block, offset, complete, saved) && (turn == Continue ==> block < |BLOCKS|)
      decreases turn == Continue, if complete then 0 else 1, |BLOCKS| - block, s.bitmap
    {
      s, block, offset, complete, turn, saved :=
        NextSearch(s0, s, block, offset, complete, last, got, memory, saved, left);
    }
  }
}
