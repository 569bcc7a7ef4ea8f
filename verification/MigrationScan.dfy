/** The search for the next dirty page, round the block list from the cursor. */
module MigrationScan {
  import opened Migration

  /** `find_next_bit`: the first set bit from nr on, `size` if there is none. */
  function NextBit(bitmap: set<nat>, size: nat, nr: nat): (n: nat)
    requires nr <= size
    ensures nr <= n <= size && (n < size ==> n in bitmap)
    ensures forall p :: nr <= p < n ==> p !in bitmap
    decreases size - nr
  {
    if nr == size || nr in bitmap then nr else NextBit(bitmap, size, nr + 1)
  }

  /** `migration_bitmap_find_and_reset_dirty`: the offset of the next dirty page, whose bit is
      cleared. In the bulk stage the page after the cursor is taken without looking at its bit. */
  function FindAndReset(s: State, b: nat, start: nat): (State, nat)
    requires b < |BLOCKS| && start <= BLOCKS[b].pages && (s.bulk && start > 0 ==> start < BLOCKS[b].pages)
  {
    var base, size := BLOCKS[b].first, BLOCKS[b].first + BLOCKS[b].pages;
    var nr := base + start;
    var next := if s.bulk && nr > base then nr + 1 else NextBit(s.bitmap, size, nr);
    if next < size then (s.(bitmap := s.bitmap - {next}, dirtyPages := s.dirtyPages - 1), next - base)
    else (s, next - base)
  }

  /** Pages [from, to) of block b are not marked. */
  ghost predicate Clean(bitmap: set<nat>, b: nat, from: nat, to: nat)
    requires b < |BLOCKS|
  {
    forall o :: from <= o < to ==> Page(b, o) !in bitmap
  }

  ghost predicate BlockClean(bitmap: set<nat>, b: nat)
    requires b < |BLOCKS|
  {
    Clean(bitmap, b, 0, BLOCKS[b].pages)
  }

  ghost predicate AllClean(bitmap: set<nat>) {
    forall b :: 0 <= b < |BLOCKS| ==> BlockClean(bitmap, b)
  }

  lemma AllCleanMeans(bitmap: set<nat>)
    requires AllClean(bitmap)
    ensures forall p: nat :: IsPage(p) ==> p !in bitmap
  {
    forall p: nat | IsPage(p) ensures p !in bitmap {
      var b :| 0 <= b < |BLOCKS| && InBlock(b, p);
      assert BlockClean(bitmap, b);
      assert p == Page(b, p - BLOCKS[b].first);
    }
  }

  /** What a scan that began at page lo of block b0 and stands at page `offset` of `block` has left
      behind: everything it passed is clean. */
  ghost predicate Scanned(bitmap: set<nat>, b0: nat, lo: nat, block: nat, offset: nat, complete: bool)
    requires b0 < |BLOCKS| && block < |BLOCKS|
  {
    if !complete && block == b0 then Clean(bitmap, b0, lo, offset)
    else
      && Clean(bitmap, b0, lo, BLOCKS[b0].pages)
      && (forall b :: b0 < b < |BLOCKS| && (complete || b < block) ==> BlockClean(bitmap, b))
      && (complete ==> forall b :: 0 <= b < block ==> BlockClean(bitmap, b))
      && Clean(bitmap, block, 0, offset)
  }

  lemma CleanLess(bitmap: set<nat>, bitmap': set<nat>, b: nat, from: nat, to: nat)
    requires b < |BLOCKS| && bitmap' <= bitmap && Clean(bitmap, b, from, to)
    ensures Clean(bitmap', b, from, to)
  {
  }

  /** Clearing bits keeps what was scanned. */
  lemma ScannedLess(bitmap: set<nat>, bitmap': set<nat>, b0: nat, lo: nat, block: nat, offset: nat, complete: bool)
    requires b0 < |BLOCKS| && block < |BLOCKS| && bitmap' <= bitmap
    requires Scanned(bitmap, b0, lo, block, offset, complete)
    ensures Scanned(bitmap', b0, lo, block, offset, complete)
  {
    forall b | 0 <= b < |BLOCKS| && BlockClean(bitmap, b) ensures BlockClean(bitmap', b) {
      CleanLess(bitmap, bitmap', b, 0, BLOCKS[b].pages);
    }
  }

  /** Where the search of block `block` ended. */
  lemma ScannedOn(bitmap: set<nat>, b0: nat, lo: nat, block: nat, offset: nat, complete: bool, next: nat)
    requires b0 < |BLOCKS| && block < |BLOCKS|
    requires Scanned(bitmap, b0, lo, block, offset, complete)
    requires if !complete && block == b0 then Clean(bitmap, b0, lo, next) else Clean(bitmap, block, offset, next)
    ensures Scanned(bitmap, b0, lo, block, next, complete)
  {
  }

  /** The end of a block: on to the next one, or round to the first. */
  lemma ScannedNextBlock(bitmap: set<nat>, b0: nat, lo: nat, block: nat, complete: bool)
    requires b0 < |BLOCKS| && block < |BLOCKS| && (complete ==> block < b0) && (!complete ==> b0 <= block)
    requires Scanned(bitmap, b0, lo, block, BLOCKS[block].pages, complete)
    ensures block + 1 < |BLOCKS| ==> Scanned(bitmap, b0, lo, block + 1, 0, complete)
    ensures block + 1 == |BLOCKS| && !complete ==> Scanned(bitmap, b0, lo, 0, 0, true)
  {
    if !complete && block != b0 {
      assert BlockClean(bitmap, block);
    }
    if complete {
      assert BlockClean(bitmap, block);
    }
  }

  /** A full round that came back to where it began finds nothing marked. */
  lemma RoundDone(bitmap: set<nat>, b0: nat, lo: nat, offset: nat)
    requires b0 < |BLOCKS| && lo <= offset
    requires Scanned(bitmap, b0, lo, b0, offset, true)
    ensures AllClean(bitmap)
  {
    forall b | 0 <= b < |BLOCKS| ensures BlockClean(bitmap, b) {
      if b == b0 {
        forall o | 0 <= o < BLOCKS[b].pages ensures Page(b, o) !in bitmap {
        }
      }
    }
  }

  /** The marked pages that belong to RAM blocks. */
  ghost function Marked(bitmap: set<nat>): set<nat> {
    set p | p in bitmap && IsPage(p)
  }

  /** Cached contents equal the destination's; in the last stage, where the cache is not kept up,
      at least those of pages still to be sent. */
  ghost predicate CacheOk(s: State, last: bool) {
    forall k :: k in s.cache && IsPage(s.cache[k].page) && (last ==> s.cache[k].page in s.bitmap) ==>
      s.cache[k].page in s.dst && s.cache[k].data == s.dst[s.cache[k].page]
  }

  /** Outside the RAM blocks the log says nothing new: those bits were set at setup and stay. */
  ghost predicate GapsMarked(s: State) {
    forall p :: p in s.log ==> IsPage(p) || p in s.bitmap
  }

  ghost predicate Core(s: State, last: bool) {
    && Sized(s) && Tracked(s) && CacheOk(s, last) && GapsMarked(s) && Replayed(s)
    && s.dirtyPages == |Marked(s.bitmap)|
  }

  /** What of the invariant depends on contents and cache alone. */
  lemma SameData(s: State, t: State)
    requires Sized(s) && Replayed(s) && t.src == s.src && t.dst == s.dst && t.cache == s.cache && t.bulk == s.bulk
    requires t.base == s.base && t.sent == s.sent
    ensures Sized(t) && Replayed(t)
  {
  }

  lemma ReadyToSave(s: State, p: nat, last: bool)
    requires Core(s, last) && p in s.bitmap && IsPage(p)
    ensures CanSave(s.(bitmap := s.bitmap - {p}, dirtyPages := s.dirtyPages - 1), p)
  {
  }

  lemma MarkedLess(bitmap: set<nat>, p: nat)
    requires p in bitmap && IsPage(p)
    ensures Marked(bitmap - {p}) == Marked(bitmap) - {p} && |Marked(bitmap - {p})| == |Marked(bitmap)| - 1
  {
    assert p in Marked(bitmap);
  }

  /** Clearing a page's bit and saving the page keeps the invariant. */
  lemma PageDone(s: State, t: State, p: nat, last: bool)
    requires Core(s, last) && p in s.bitmap && IsPage(p)
    requires SavedOk(s.(bitmap := s.bitmap - {p}, dirtyPages := s.dirtyPages - 1), t, p, last)
    ensures Core(t, last)
  {
    MarkedLess(s.bitmap, p);
  }

  ghost predicate CursorOk(s: State) {
    match s.seen
    case None => s.offset == 0 && s.bulk
    case Some(b) => b < |BLOCKS| && s.offset <= BLOCKS[b].pages && (s.bulk ==> s.offset < BLOCKS[b].pages)
  }

  /** In the bulk stage every page after the cursor is still marked. */
  ghost predicate AheadMarked(s: State)
    requires CursorOk(s)
  {
    s.bulk ==>
      match s.seen
      case None => forall b, o :: 0 <= b < |BLOCKS| && 0 <= o < BLOCKS[b].pages ==> Page(b, o) in s.bitmap
      case Some(b0) =>
        && (forall o :: s.offset < o < BLOCKS[b0].pages ==> Page(b0, o) in s.bitmap)
        && (forall b, o :: b0 < b < |BLOCKS| && 0 <= o < BLOCKS[b].pages ==> Page(b, o) in s.bitmap)
  }

  ghost predicate Inv(s: State, last: bool) {
    Core(s, last) && CursorOk(s) && AheadMarked(s)
  }

  /** The one state in which the search clears a bit without saving the page: the bulk stage, the
      cursor inside a block, and the page under it the only one marked. */
  ghost predicate CursorPageOnly(s: State)
    requires CursorOk(s)
  {
    && s.bulk && s.seen.Some? && s.offset > 0
    && Page(s.seen.value, s.offset) in s.bitmap
    && forall p: nat :: IsPage(p) && p in s.bitmap ==> p == Page(s.seen.value, s.offset)
  }

  /** The cursor page is not marked, as after every search. */
  ghost predicate Rested(s: State)
    requires CursorOk(s)
  {
    s.bulk && s.seen.Some? ==> Page(s.seen.value, s.offset) !in s.bitmap
  }
}
