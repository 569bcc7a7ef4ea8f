/** `migration_bitmap_sync`: move the dirty log into the migration bitmap. */
module MigrationSync {
  import opened Arith
  import opened Migration
  import opened MigrationScan

  /** Some pages went from the log to the bitmap, and those not marked before were counted. */
  ghost predicate Moves(s0: State, s: State) {
    && s == s0.(log := s.log, bitmap := s.bitmap, dirtyPages := s.dirtyPages)
    && s.log <= s0.log && s.bitmap == s0.bitmap + (s0.log - s.log)
    && s.dirtyPages == s0.dirtyPages + |s.bitmap - s0.bitmap|
  }

  /** Exactly the logged pages of [lo, hi) did. */
  ghost predicate Moved(s0: State, s: State, lo: nat, hi: nat) {
    Moves(s0, s) && forall p :: p in s.log <==> p in s0.log && !(lo <= p < hi)
  }

  lemma NewlyMarked(s0: State, s: State)
    requires GapsMarked(s0) && Moves(s0, s)
    ensures Marked(s.bitmap) == Marked(s0.bitmap) + (s.bitmap - s0.bitmap)
    ensures Marked(s0.bitmap) !! (s.bitmap - s0.bitmap)
  {
  }

  /** No mark is lost, and the dirty page count stays exact. */
  lemma MovesKeepInv(s0: State, s: State)
    requires Inv(s0, false) && Moves(s0, s)
    ensures Inv(s, false)
  {
    SameData(s0, s);
    NewlyMarked(s0, s);
    MovesTracked(s0, s);
    MovesAhead(s0, s);
  }

  lemma MovesTracked(s0: State, s: State)
    requires Tracked(s0) && GapsMarked(s0) && CacheOk(s0, false) && Moves(s0, s)
    ensures Tracked(s) && GapsMarked(s) && CacheOk(s, false)
  {
  }

  lemma MovesAhead(s0: State, s: State)
    requires CursorOk(s0) && AheadMarked(s0) && Moves(s0, s)
    ensures CursorOk(s) && AheadMarked(s)
  {
  }

  lemma MovesTrans(s0: State, s: State, t: State)
    requires Moves(s0, s) && Moves(s, t)
    ensures Moves(s0, t)
  {
    assert t.bitmap - s0.bitmap == (s.bitmap - s0.bitmap) + (t.bitmap - s.bitmap);
    assert t.bitmap == s0.bitmap + (s0.log - t.log);
  }

  lemma MovesNothing(s: State)
    ensures Moves(s, s)
  {
    assert s.bitmap - s.bitmap == {} && s.bitmap + (s.log - s.log) == s.bitmap;
  }

  lemma MovedOn(s0: State, s: State, t: State, lo: nat, mid: nat, hi: nat)
    requires Moved(s0, s, lo, mid) && Moved(s, t, mid, hi) && lo <= mid <= hi
    ensures Moved(s0, t, lo, hi)
  {
    MovesTrans(s0, s, t);
  }

  function Pages(first: nat, n: nat): (r: set<nat>)
    ensures forall p :: p in r <==> first <= p < first + n
  {
    if n == 0 then {} else Pages(first, n - 1) + {first + n - 1}
  }

  /** One word of the bitmaps: the pages from `first` on. */
  method SyncWord(s: State, first: nat) returns (t: State)
    ensures Moved(s, t, first, first + C.bitsPerLong)
  {
    t := s;
    var word := s.log * Pages(first, C.bitsPerLong);
    if word != {} {
      var newDirty := word - s.bitmap;
      t := s.(bitmap := s.bitmap + word, dirtyPages := s.dirtyPages + |newDirty|, log := s.log - word);
      assert t.bitmap - s.bitmap == newDirty && s.log - t.log == word;
    } else {
      MovesNothing(s);
      assert forall p :: p in s.log ==> p !in word;
    }
  }

  /** The fast path of `migration_bitmap_sync_range`: word by word, from a word boundary on. */
  method SyncWords(s0: State, page: nat, nr: nat) returns (s: State)
    ensures Moved(s0, s, page * C.bitsPerLong, (page + nr) * C.bitsPerLong)
  {
    s := s0;
    MovesNothing(s0);
    for k := page to page + nr
      invariant page * C.bitsPerLong <= k * C.bitsPerLong
      invariant Moved(s0, s, page * C.bitsPerLong, k * C.bitsPerLong)
    {
      var first := k * C.bitsPerLong;
      MulDistributes(k, 1, C.bitsPerLong);
      var t := SyncWord(s, first);
      MovedOn(s0, s, t, page * C.bitsPerLong, first, first + C.bitsPerLong);
      s := t;
    }
  }

  lemma OneMoves(log: set<nat>, bitmap: set<nat>, p: nat)
    requires p in log
    ensures log - (log - {p}) == {p} && (bitmap + {p}) - bitmap == if p in bitmap then {} else {p}
  {
  }

  /** One page: `migration_bitmap_set_dirty` if the log has it. */
  method SyncPage(s: State, p: nat) returns (t: State)
    ensures Moved(s, t, p, p + 1)
  {
    t := s;
    if p in s.log {
      if p !in s.bitmap {
        t := t.(dirtyPages := t.dirtyPages + 1);
      }
      t := t.(log := t.log - {p}, bitmap := t.bitmap + {p});
      OneMoves(s.log, s.bitmap, p);
    } else {
      MovesNothing(s);
    }
  }

  /** The page by page path. */
  method SyncPages(s0: State, first: nat, pages: nat) returns (s: State)
    ensures Moved(s0, s, first, first + pages)
  {
    s := s0;
    MovesNothing(s0);
    for o := 0 to pages
      invariant Moved(s0, s, first, first + o)
    {
      var t := SyncPage(s, first + o);
      MovedOn(s0, s, t, first, first + o, first + o + 1);
      s := t;
    }
  }

  /** Where a sync of the block ends: with the block, or with the last word of a block that begins
      with a word. */
  function SyncEnd(b: nat): nat
    requires b < |BLOCKS|
  {
    var w, first, pages := C.bitsPerLong, BLOCKS[b].first, BLOCKS[b].pages;
    if first / w * w == first then (first / w + (pages + w - 1) / w) * w else first + pages
  }

  lemma RoundUp(n: nat, w: nat)
    requires 0 < w
    ensures n <= (n + w - 1) / w * w
  {
  }

  lemma SyncEndCovers(b: nat)
    requires b < |BLOCKS|
    ensures BLOCKS[b].first + BLOCKS[b].pages <= SyncEnd(b)
  {
    var w, first, pages := C.bitsPerLong, BLOCKS[b].first, BLOCKS[b].pages;
    if first / w * w == first {
      RoundUp(pages, w);
      MulDistributes(first / w, (pages + w - 1) / w, w);
    }
  }

  /** `migration_bitmap_sync_range` for one block: on either path exactly the logged pages from the
      block's first one on, and at least to its last, move to the bitmap. */
  method SyncRange(s0: State, b: nat) returns (s: State)
    requires b < |BLOCKS|
    ensures Moved(s0, s, BLOCKS[b].first, SyncEnd(b))
  {
    var page := BLOCKS[b].first / C.bitsPerLong;
    if page * C.bitsPerLong == BLOCKS[b].first {
      var nr := (BLOCKS[b].pages + C.bitsPerLong - 1) / C.bitsPerLong;
      s := SyncWords(s0, page, nr);
    } else {
      s := SyncPages(s0, BLOCKS[b].first, BLOCKS[b].pages);
    }
  }

  /** The log has no page of the first k blocks. */
  ghost predicate Emptied(log: set<nat>, k: nat)
    requires k <= |BLOCKS|
  {
    forall b, p: nat :: 0 <= b < k && InBlock(b, p) ==> p !in log
  }

  lemma EmptiedMore(s: State, t: State, k: nat)
    requires k < |BLOCKS| && Emptied(s.log, k) && Moved(s, t, BLOCKS[k].first, SyncEnd(k))
    ensures Emptied(t.log, k + 1)
  {
    SyncEndCovers(k);
  }

  method SyncBlocks(s0: State) returns (s: State)
    ensures Moves(s0, s) && Emptied(s.log, |BLOCKS|)
  {
    s := s0;
    MovesNothing(s0);
    for b := 0 to |BLOCKS|
      invariant Moves(s0, s) && Emptied(s.log, b)
    {
      var t := SyncRange(s, b);
      MovesTrans(s0, s, t);
      EmptiedMore(s, t, b);
      s := t;
    }
  }

  /** What a sync does: every dirty page of a block is now marked in the bitmap and not in the
      log, no mark is made up, and the count is exact. */
  ghost predicate Synced(s0: State, s: State) {
    && s == s0.(log := s.log, bitmap := s.bitmap, dirtyPages := s.dirtyPages)
    && s.log <= s0.log && s.bitmap == s0.bitmap + (s0.log - s.log)
    && (forall p: nat :: IsPage(p) ==> p !in s.log)
    && Inv(s, false)
  }

  /** `migration_bitmap_sync`. */
  method Sync(s0: State) returns (s: State)
    requires Inv(s0, false)
    ensures Synced(s0, s)
  {
    s := SyncBlocks(s0);
    MovesKeepInv(s0, s);
  }
}
