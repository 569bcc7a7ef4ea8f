/** Whole migrations: setup, rounds of searching while the guest writes, and completion. */
module MigrationRun {
  import opened Values
  import opened Migration
  import opened MigrationScan
  import opened MigrationSave
  import opened MigrationSync

  // ---- Setup: what is marked and how many pages that is ----

  function TotalPages(n: nat): nat
    requires n <= |BLOCKS|
  {
    if n == 0 then 0 else TotalPages(n - 1) + BLOCKS[n - 1].pages
  }

  /** The pages of the first n blocks. */
  ghost function PagesOf(n: nat): set<nat>
    requires n <= |BLOCKS|
  {
    if n == 0 then {} else PagesOf(n - 1) + Pages(BLOCKS[n - 1].first, BLOCKS[n - 1].pages)
  }

  lemma {:induction false} InPagesOf(n: nat, p: nat)
    requires n <= |BLOCKS|
    ensures p in PagesOf(n) <==> exists b :: 0 <= b < n && InBlock(b, p)
  {
    if n > 0 {
      var b := n - 1;
      InPagesOf(b, p);
      assert p in Pages(BLOCKS[b].first, BLOCKS[b].pages) <==> InBlock(b, p);
    }
  }

  lemma {:induction false} PagesCount(first: nat, n: nat)
    ensures |Pages(first, n)| == n
  {
    if n > 0 {
      PagesCount(first, n - 1);
    }
  }

  lemma PagesApart(b: nat)
    requires b < |BLOCKS|
    ensures PagesOf(b) !! Pages(BLOCKS[b].first, BLOCKS[b].pages)
  {
    forall p | p in Pages(BLOCKS[b].first, BLOCKS[b].pages) ensures p !in PagesOf(b) {
      InPagesOf(b, p);
    }
  }

  lemma ApartCount(a: set<nat>, b: set<nat>)
    requires a !! b
    ensures |a + b| == |a| + |b|
  {
  }

  /** Blocks do not overlap, so their lengths add up. */
  lemma {:induction false} PagesOfCount(n: nat)
    requires n <= |BLOCKS|
    ensures |PagesOf(n)| == TotalPages(n)
  {
    if n > 0 {
      var b := n - 1;
      var before, pages := PagesOf(b), Pages(BLOCKS[b].first, BLOCKS[b].pages);
      assert PagesOf(n) == before + pages;
      PagesOfCount(b);
      PagesCount(BLOCKS[b].first, BLOCKS[b].pages);
      PagesApart(b);
      ApartCount(before, pages);
    }
  }

  ghost predicate EndsBy(last: nat, n: nat)
    requires n <= |BLOCKS|
  {
    forall b :: 0 <= b < n ==> BLOCKS[b].first + BLOCKS[b].pages <= last
  }

  /** `last_ram_offset`, in pages: the least number no block reaches past. */
  method LastRamPage() returns (last: nat)
    ensures EndsBy(last, |BLOCKS|)
    ensures exists b :: 0 <= b < |BLOCKS| && last == BLOCKS[b].first + BLOCKS[b].pages
  {
    last := 0;
    ghost var highest := 0;
    for b := 0 to |BLOCKS|
      invariant EndsBy(last, b)
      invariant if b == 0 then last == 0 else highest < b && last == BLOCKS[highest].first + BLOCKS[highest].pages
    {
      if last < BLOCKS[b].first + BLOCKS[b].pages {
        last, highest := BLOCKS[b].first + BLOCKS[b].pages, b;
      }
    }
  }

  method CountPages() returns (total: nat)
    ensures total == TotalPages(|BLOCKS|)
  {
    total := 0;
    for b := 0 to |BLOCKS|
      invariant total == TotalPages(b)
    {
      total := total + BLOCKS[b].pages;
    }
  }

  lemma AllMarked(last: nat)
    requires EndsBy(last, |BLOCKS|)
    ensures forall p: nat :: IsPage(p) ==> p in Pages(0, last)
    ensures Marked(Pages(0, last)) == PagesOf(|BLOCKS|)
    ensures |Marked(Pages(0, last))| == TotalPages(|BLOCKS|)
  {
    forall p: nat | true ensures IsPage(p) <==> p in PagesOf(|BLOCKS|) {
      InPagesOf(|BLOCKS|, p);
    }
    PagesOfCount(|BLOCKS|);
  }

  /** The log has no bits past the end of RAM. */
  ghost predicate LogWithin(log: set<nat>) {
    forall p :: p in log ==> exists b :: 0 <= b < |BLOCKS| && p < BLOCKS[b].first + BLOCKS[b].pages
  }

  ghost predicate Memory(m: map<nat, Content>) {
    forall p :: IsPage(p) ==> p in m && PageContent(m[p])
  }

  lemma LogMarked(log: set<nat>, last: nat)
    requires LogWithin(log) && EndsBy(last, |BLOCKS|)
    ensures forall p :: p in log ==> p in Pages(0, last)
  {
  }

  lemma PagesMarked(bitmap: set<nat>)
    requires forall p: nat :: IsPage(p) ==> p in bitmap
    ensures forall b, o :: 0 <= b < |BLOCKS| && 0 <= o < BLOCKS[b].pages ==> Page(b, o) in bitmap
  {
    forall b, o | 0 <= b < |BLOCKS| && 0 <= o < BLOCKS[b].pages ensures Page(b, o) in bitmap {
      assert InBlock(b, Page(b, o));
    }
  }

  lemma StartInv(s: State)
    requires Memory(s.src) && Memory(s.dst) && (forall p :: p in s.log ==> p in s.bitmap)
    requires (forall p: nat :: IsPage(p) ==> p in s.bitmap) && s.dirtyPages == |Marked(s.bitmap)|
    requires s.seen == None && s.offset == 0 && s.bulk && s.cache == map[] && s.base == s.dst && s.sent == []
    ensures Inv(s, false)
  {
    PagesMarked(s.bitmap);
  }

  // ---- The guest ----

  datatype Write = Write(page: nat, data: Content)

  ghost predicate WriteOk(w: Write) { IsPage(w.page) && PageContent(w.data) }

  function Wrote(s: State, w: Write): State {
    s.(src := s.src[w.page := w.data], log := s.log + {w.page}, lost := s.lost - {w.page})
  }

  lemma WroteInv(s: State, w: Write)
    requires Inv(s, false) && WriteOk(w)
    ensures Inv(Wrote(s, w), false)
  {
    var t := Wrote(s, w);
    assert Sized(t) && Tracked(t) && CacheOk(t, false) && GapsMarked(t);
    assert AheadMarked(t);
  }

  /** The reads of a page while the guest runs: `raw` if the guest wrote it since the last sync. */
  function Seen(s: State, raw: nat -> Reads): nat -> Reads {
    (p: nat) => if p in s.log || p !in s.src then raw(p) else Reads(s.src[p], s.src[p], s.src[p])
  }

  ghost predicate RawOk(raw: nat -> Reads) {
    forall p :: PageContent(raw(p).test) && PageContent(raw(p).copy) && PageContent(raw(p).sent)
  }

  lemma SeenOk(s: State, raw: nat -> Reads, last: bool)
    requires Inv(s, last) && RawOk(raw)
    ensures forall p: nat :: IsPage(p) ==> ReadsOk(s, p, Seen(s, raw)(p))
  {
  }

  // ---- When a page is lost ----

  /** What the next sync will leave marked. */
  ghost function Pending(s: State): State { s.(bitmap := s.bitmap + s.log) }

  /** The lone cursor page in terms of the variables the program keeps: the bulk stage has reached
      the last page of the last block, that block has more than one page, and that page is the one
      page marked. */
  lemma CursorPageOnlyExactly(s: State, last: bool)
    requires Inv(s, last)
    ensures CursorPageOnly(s) <==>
      var b := |BLOCKS| - 1;
      && s.bulk && s.seen == Some(b) && s.offset == BLOCKS[b].pages - 1 > 0
      && Page(b, s.offset) in s.bitmap && s.dirtyPages == 1
  {
    var b := |BLOCKS| - 1;
    if CursorPageOnly(s) {
      var p := Page(s.seen.value, s.offset);
      assert InBlock(s.seen.value, p);
      assert Marked(s.bitmap) == {p};
      if s.seen.value < b {
        PagesDiffer(b, 0, s.seen.value, s.offset);
        assert InBlock(b, Page(b, 0));
      } else if s.offset + 1 < BLOCKS[b].pages {
        assert InBlock(b, Page(b, s.offset + 1));
      }
    }
    if s.bulk && s.seen == Some(b) && s.offset == BLOCKS[b].pages - 1 > 0
      && Page(b, s.offset) in s.bitmap && s.dirtyPages == 1 {
      var p := Page(b, s.offset);
      assert InBlock(b, p) && p in Marked(s.bitmap);
      OnlyMember(Marked(s.bitmap), p);
      forall q: nat | IsPage(q) && q in s.bitmap ensures q == p {
        assert q in Marked(s.bitmap);
      }
    }
  }

  lemma OnlyMember(s: set<nat>, p: nat)
    requires |s| == 1 && p in s
    ensures forall q :: q in s ==> q == p
  {
    assert |s - {p}| == 0;
  }

  lemma PendingSynced(s0: State, s: State)
    requires CursorOk(s0) && Synced(s0, s)
    ensures CursorPageOnly(s) <==> CursorPageOnly(Pending(s0))
  {
    forall p: nat | IsPage(p) ensures p in s.bitmap <==> p in Pending(s0).bitmap {
    }
    if s0.seen.Some? && s0.bulk {
      assert InBlock(s0.seen.value, Page(s0.seen.value, s0.offset));
    }
  }

  predicate SamePage(s: State, p: nat) {
    p in s.src && p in s.dst && s.src[p] == s.dst[p]
  }

  /** Source and destination hold the same RAM. */
  ghost predicate SameRam(s: State) {
    forall p: nat :: IsPage(p) ==> SamePage(s, p)
  }

  /** All pages that were not lost are the same. */
  ghost predicate SameButLost(s: State) {
    forall p: nat :: IsPage(p) && p !in s.lost ==> SamePage(s, p)
  }

  lemma CleanIsSame(s: State, last: bool)
    requires Core(s, last) && AllClean(s.bitmap) && forall p: nat :: IsPage(p) ==> p !in s.log
    ensures SameButLost(s) && s.dirtyPages == 0
  {
    AllCleanMeans(s.bitmap);
    assert Marked(s.bitmap) == {};
  }

  lemma LastStage(s: State)
    requires Inv(s, false)
    ensures Inv(s, true)
  {
  }

  // ---- Rounds and completion ----

  /** What happens around one turn of a round: the guest's writes before it, what reads of pages the
      guest is writing see, and whether the cache can get memory. */
  datatype Instant = Instant(writes: seq<Write>, raw: nat -> Reads, memory: nat -> bool)

  ghost predicate InstantOk(i: Instant) {
    RawOk(i.raw) && WritesOk(i.writes)
  }

  ghost predicate PlanOk(plan: seq<Instant>) {
    forall k :: 0 <= k < |plan| ==> InstantOk(plan[k])
  }

  /** The memory after the writes, in order. */
  function AfterWrites(m: map<nat, Content>, writes: seq<Write>): map<nat, Content> {
    if writes == [] then m else
      var last := writes[|writes| - 1];
      AfterWrites(m, writes[..|writes| - 1])[last.page := last.data]
  }

  lemma AfterOne(m: map<nat, Content>, writes: seq<Write>, k: nat)
    requires k < |writes|
    ensures AfterWrites(m, writes[..k + 1]) == AfterWrites(m, writes[..k])[writes[k].page := writes[k].data]
  {
    assert writes[..k + 1][..k] == writes[..k];
  }

  lemma {:induction false} AfterBoth(m: map<nat, Content>, a: seq<Write>, b: seq<Write>)
    ensures AfterWrites(m, a + b) == AfterWrites(AfterWrites(m, a), b)
    decreases |b|
  {
    if b == [] {
      assert a + b == a;
    } else {
      var n := |b| - 1;
      AfterBoth(m, a, b[..n]);
      assert (a + b)[..|a + b| - 1] == a + b[..n];
    }
  }

  /** The pages written. */
  function Touched(writes: seq<Write>): set<nat> {
    set w | w in writes :: w.page
  }

  lemma TouchedBoth(a: seq<Write>, b: seq<Write>)
    ensures Touched(a + b) == Touched(a) + Touched(b)
  {
  }

  lemma TouchedOne(writes: seq<Write>, k: nat)
    requires k < |writes|
    ensures Touched(writes[..k + 1]) == Touched(writes[..k]) + {writes[k].page}
  {
    assert writes[..k + 1] == writes[..k] + [writes[k]];
    TouchedBoth(writes[..k], [writes[k]]);
  }

  /** The guest wrote: its memory and the log changed, and written pages count as lost no more. */
  function Guested(s: State, writes: seq<Write>): State {
    s.(src := AfterWrites(s.src, writes), log := s.log + Touched(writes), lost := s.lost - Touched(writes))
  }

  lemma GuestedOne(s: State, writes: seq<Write>, k: nat)
    requires k < |writes|
    ensures Guested(s, writes[..k + 1]) == Wrote(Guested(s, writes[..k]), writes[k])
  {
    AfterOne(s.src, writes, k);
    TouchedOne(writes, k);
    var t, p := Touched(writes[..k]), writes[k].page;
    assert s.log + (t + {p}) == s.log + t + {p} && s.lost - (t + {p}) == s.lost - t - {p};
  }

  lemma GuestedNothing(s: State)
    ensures Guested(s, []) == s
  {
    assert Touched([]) == {} && s.log + {} == s.log && s.lost - {} == s.lost;
  }

  method GuestWrites(s0: State, writes: seq<Write>) returns (s: State)
    requires Inv(s0, false) && WritesOk(writes)
    ensures Inv(s, false) && s == Guested(s0, writes)
  {
    s := s0;
    GuestedNothing(s0);
    for k := 0 to |writes|
      invariant Inv(s, false) && s == Guested(s0, writes[..k])
    {
      WroteInv(s, writes[k]);
      GuestedOne(s0, writes, k);
      s := Wrote(s, writes[k]);
    }
    assert writes[..|writes|] == writes;
  }

  /** The guest's writes in the first k turns of a plan. */
  function PlanWrites(plan: seq<Instant>, k: nat): seq<Write>
    requires k <= |plan|
  {
    if k == 0 then [] else PlanWrites(plan, k - 1) + plan[k - 1].writes
  }

  /** How many pages the bulk stage has come past: the cursor's place among all pages. */
  function Progress(s: State): nat
    requires CursorOk(s)
  {
    if s.seen.None? then 0 else TotalPages(s.seen.value) + s.offset + 1
  }

  /** In the bulk stage, when nothing was marked behind the cursor, each turn sends the next page. */
  ghost predicate BulkResult(s0: State, s: State, turns: nat, sent: bool)
    requires CursorOk(s0)
  {
    s0.bulk && Rested(s0) && Progress(s0) + turns <= TotalPages(|BLOCKS|) ==>
      sent && s.bulk && CursorOk(s) && Progress(s) == Progress(s0) + turns && s.dirtyPages == s0.dirtyPages - turns
  }

  /** What some turns with the guest's writes between them, begun in state s0, leave: exactly the lone
      cursor page is lost, unless the guest writes it, and at the destination only pages marked at
      first change. */
  ghost predicate RoundResult(s0: State, s: State, writes: seq<Write>, turns: nat, sent: bool) {
    && CursorOk(s0) && Inv(s, false) && s.base == s0.base && s.bitmap <= s0.bitmap && SameBut(s0, s, s0.bitmap)
    && s.src == AfterWrites(s0.src, writes) && s.log == s0.log + Touched(writes)
    && (!sent ==> AllClean(s.bitmap)) && BulkResult(s0, s, turns, sent)
    && if turns == 0 then s == s0 && sent else
         && Rested(s) && (sent ==> s.bitmap < s0.bitmap)
         && s.lost == s0.lost + Dropped(s0) - Touched(writes)
         && (CursorPageOnly(s0) ==> !sent && s.dst == s0.dst)
  }

  lemma {:induction false} TotalGrows(j: nat, k: nat)
    requires j <= k <= |BLOCKS|
    ensures TotalPages(j) <= TotalPages(k)
    decreases k - j
  {
    if j < k {
      TotalGrows(j, k - 1);
    }
  }

  /** There is a page after the cursor exactly until the cursor has passed them all. */
  lemma ProgressNext(s: State)
    requires CursorOk(s) && s.bulk
    ensures Progress(s) <= TotalPages(|BLOCKS|)
    ensures NextPos(s).Some? <==> Progress(s) < TotalPages(|BLOCKS|)
  {
    if s.seen.Some? {
      TotalGrows(s.seen.value + 1, |BLOCKS|);
      if s.seen.value + 1 < |BLOCKS| {
        TotalGrows(s.seen.value + 2, |BLOCKS|);
      }
    } else {
      TotalGrows(1, |BLOCKS|);
    }
  }

  lemma BulkCounts(s0: State, s: State)
    requires CursorOk(s0) && s0.bulk && NextPos(s0).Some? && BulkSent(s0, s) && Core(s0, false) && Core(s, false)
    ensures CursorOk(s) && Progress(s) == Progress(s0) + 1 && s.dirtyPages == s0.dirtyPages - 1
  {
    var next := NextPos(s0).value;
    assert InBlock(next.block, Page(next.block, next.offset));
    MarkedLess(s0.bitmap, Page(next.block, next.offset));
  }

  /** One search, after the guest's writes. */
  method IterateOnce(s0: State, i: Instant) returns (s: State, sent: bool)
    requires Inv(s0, false) && InstantOk(i)
    ensures RoundResult(s0, s, i.writes, 1, sent)
  {
    var s1 := GuestWrites(s0, i.writes);
    SeenOk(s1, i.raw, false);
    ghost var saved;
    s, sent, saved := FindAndSaveBlock(s1, false, Seen(s1, i.raw), i.memory);
    SearchCounts(s0, s1, s, i.writes, sent);
  }

  lemma SearchCounts(s0: State, s1: State, s: State, writes: seq<Write>, sent: bool)
    requires Inv(s0, false) && s1 == Guested(s0, writes) && Inv(s1, false)
    requires SearchResult(s1, s, sent, false) && SameBut(s1, s, s1.bitmap)
    requires s.src == s1.src && s.log == s1.log && s.base == s1.base && s.bitmap <= s1.bitmap
    requires sent ==> s.bitmap < s1.bitmap
    requires s1.bulk && Rested(s1) && NextPos(s1).Some? ==> sent && BulkSent(s1, s)
    ensures RoundResult(s0, s, writes, 1, sent)
  {
    assert CursorPageOnly(s1) <==> CursorPageOnly(s0);
    assert s.lost == s0.lost + Dropped(s0) - Touched(writes) by {
      LostByOne(s0, s1, writes);
    }
    if s0.bulk && Rested(s0) && Progress(s0) + 1 <= TotalPages(|BLOCKS|) {
      ProgressNext(s1);
      BulkCounts(s1, s);
    }
  }

  lemma LostByOne(s0: State, s1: State, writes: seq<Write>)
    requires CursorOk(s0) && s1 == Guested(s0, writes)
    ensures s1.lost + Dropped(s1) == s0.lost + Dropped(s0) - Touched(writes)
  {
    assert CursorPageOnly(s1) <==> CursorPageOnly(s0);
  }

  /** A turn after others that all sent a page. */
  lemma OneMoreTurn(s0: State, s: State, t: State, writes: seq<Write>, turns: nat, more: seq<Write>, sent: bool)
    requires RoundResult(s0, s, writes, turns, true) && RoundResult(s, t, more, 1, sent)
    requires turns == 0 ==> writes == []
    ensures RoundResult(s0, t, writes + more, turns + 1, sent)
  {
    AfterBoth(s0.src, writes, more);
    TouchedBoth(writes, more);
    if turns == 0 {
      assert writes + more == more;
    } else {
      assert !CursorPageOnly(s) && !CursorPageOnly(s0);
      var a, b := Touched(writes), Touched(more);
      assert s0.lost - (a + b) == s0.lost - a - b;
    }
  }

  /** One turn of a round in which every turn so far sent a page. */
  method IterateTurn(ghost s0: State, s: State, plan: seq<Instant>, ran: nat) returns (t: State, sent: bool)
    requires PlanOk(plan) && ran < |plan| && RoundResult(s0, s, PlanWrites(plan, ran), ran, true)
    ensures RoundResult(s0, t, PlanWrites(plan, ran + 1), ran + 1, sent)
  {
    t, sent := IterateOnce(s, plan[ran]);
    OneMoreTurn(s0, s, t, PlanWrites(plan, ran), ran, plan[ran].writes, sent);
  }

  /** What the turns of a plan leave, as a function of the state, their number and the last result: it keeps
      the loop below from looking into `RoundResult`. */
  ghost predicate Leaves(left: (State, nat, bool) -> bool, s0: State, plan: seq<Instant>) {
    forall s: State, ran: nat, sent: bool {:trigger RoundResult(s0, s, PlanWrites(plan, ran), ran, sent)} ::
      ran <= |plan| ==> (left(s, ran, sent) <==> RoundResult(s0, s, PlanWrites(plan, ran), ran, sent))
  }

  method NextTurn(ghost s0: State, s: State, plan: seq<Instant>, ran: nat, ghost left: (State, nat, bool) -> bool)
    returns (t: State, sent: bool)
    requires PlanOk(plan) && ran < |plan| && Leaves(left, s0, plan) && left(s, ran, true)
    ensures left(t, ran + 1, sent)
  {
    assert RoundResult(s0, s, PlanWrites(plan, ran), ran, true);
    t, sent := IterateTurn(s0, s, plan, ran);
  }

  method TurnLoop(s0: State, plan: seq<Instant>, ghost left: (State, nat, bool) -> bool)
    returns (s: State, sent: bool, ran: nat)
    requires PlanOk(plan) && Leaves(left, s0, plan) && left(s0, 0, true)
    ensures ran <= |plan| && (sent ==> ran == |plan|) && (plan != [] ==> ran > 0) && left(s, ran, sent)
  {
    s, sent, ran := s0, true, 0;
    while sent && ran < |plan|
      invariant ran <= |plan| && (!sent ==> ran > 0) && left(s, ran, sent)
      decreases |plan| - ran
    {
      s, sent := NextTurn(s0, s, plan, ran, left);
      ran := ran + 1;
    }
  }

  method IterateTurns(s0: State, plan: seq<Instant>) returns (s: State, sent: bool, ran: nat)
    requires Inv(s0, false) && PlanOk(plan)
    ensures ran <= |plan| && (sent ==> ran == |plan|) && (plan != [] ==> ran > 0)
    ensures RoundResult(s0, s, PlanWrites(plan, ran), ran, sent)
  {
    ghost var left := (s: State, ran: nat, sent: bool) =>
      ran <= |plan| && RoundResult(s0, s, PlanWrites(plan, ran), ran, sent);
    NoTurns(s0);
    s, sent, ran := TurnLoop(s0, plan, left);
  }

  lemma NoTurns(s: State)
    requires Inv(s, false)
    ensures RoundResult(s, s, [], 0, true)
  {
    assert Touched([]) == {} && s.log + {} == s.log;
  }

  lemma {:induction false} PlanPrefix(plan: seq<Instant>, j: nat, k: nat)
    requires j <= k <= |plan|
    ensures PlanWrites(plan, j) <= PlanWrites(plan, k)
    decreases k - j
  {
    if j < k {
      PlanPrefix(plan, j, k - 1);
    }
  }

  ghost predicate WritesOk(writes: seq<Write>) {
    forall k :: 0 <= k < |writes| ==> WriteOk(writes[k])
  }

  lemma {:induction false} PlanWritesOk(plan: seq<Instant>, k: nat)
    requires PlanOk(plan) && k <= |plan|
    ensures WritesOk(PlanWrites(plan, k))
  {
    if k > 0 {
      PlanWritesOk(plan, k - 1);
      assert InstantOk(plan[k - 1]);
    }
  }

  /** What the guest writes in the turns of a plan that a round did not come to. */
  method LaterWrites(s0: State, plan: seq<Instant>, ran: nat) returns (s: State, ghost rest: seq<Write>)
    requires Inv(s0, false) && PlanOk(plan) && ran <= |plan|
    ensures Inv(s, false) && s == Guested(s0, rest) && PlanWrites(plan, |plan|) == PlanWrites(plan, ran) + rest
  {
    var all, done := PlanWrites(plan, |plan|), PlanWrites(plan, ran);
    PlanPrefix(plan, ran, |plan|);
    PlanWritesOk(plan, |plan|);
    rest := all[|done|..];
    assert all == done + rest;
    s := GuestWrites(s0, all[|done|..]);
  }

  method CompleteOnce(s0: State, memory: nat -> bool) returns (s: State, sent: bool)
    requires Inv(s0, true) && forall p: nat :: IsPage(p) ==> p !in s0.log
    ensures SearchResult(s0, s, sent, true) && s.src == s0.src && s.log == s0.log && s.base == s0.base
    ensures s.bitmap <= s0.bitmap && SameBut(s0, s, s0.bitmap) && (sent ==> s.bitmap < s0.bitmap)
  {
    var nothing := Reads([], [], []);
    var got := (p: nat) => if p in s0.src then Reads(s0.src[p], s0.src[p], s0.src[p]) else nothing;
    ghost var saved;
    s, sent, saved := FindAndSaveBlock(s0, true, got, memory);
  }

  /** What completion leaves: the same RAM on both sides but for the lost pages, to which it adds
      the lone cursor page if the sync leaves that; then it sends nothing. */
  ghost predicate CompleteResult(s0: State, s: State) {
    && CursorOk(s0) && s.src == s0.src && s.base == s0.base && Replayed(s) && s.dirtyPages == 0 && SameButLost(s)
    && s.lost == s0.lost + (if CursorPageOnly(Pending(s0)) then {Page(s0.seen.value, s0.offset)} else {})
    && SameBut(s0, s, s0.bitmap + s0.log) && (CursorPageOnly(Pending(s0)) ==> s.dst == s0.dst)
  }

  lemma LonePageLogged(s0: State, s1: State)
    requires CursorOk(s0) && Synced(s0, s1)
    ensures Dropped(s1) == if CursorPageOnly(Pending(s0)) then {Page(s0.seen.value, s0.offset)} else {}
  {
    PendingSynced(s0, s1);
    if CursorPageOnly(s1) {
      assert InBlock(s0.seen.value, Page(s0.seen.value, s0.offset));
    }
  }

  /** The globals of a migration in progress. */
  class RamMigration {
    var st: State

    /** `ram_save_setup`: every page is marked and counted. */
    constructor (src: map<nat, Content>, dst: map<nat, Content>, log: set<nat>)
      requires Memory(src) && Memory(dst) && LogWithin(log)
      ensures Inv(st, false) && st.src == src && st.dst == dst
      ensures forall p: nat :: IsPage(p) ==> p in st.bitmap && p !in st.log
      ensures st.dirtyPages == TotalPages(|BLOCKS|) && st.lost == {} && st.seen == None && st.bulk
      ensures st.base == dst && st.sent == []
    {
      var last := LastRamPage();
      var count := CountPages();
      AllMarked(last);
      LogMarked(log, last);
      var s := State(src, dst, log, Pages(0, last), count, None, 0, true, map[], {}, dst, []);
      StartInv(s);
      s := Sync(s);
      st := s;
      new;
      assert Marked(st.bitmap) == PagesOf(|BLOCKS|);
    }

    /** The guest writes a page. */
    method GuestWrite(w: Write)
      requires Inv(st, false) && WriteOk(w)
      modifies this
      ensures Inv(st, false) && st == Wrote(old(st), w)
    {
      WroteInv(st, w);
      st := Wrote(st, w);
    }

    /** `ram_save_pending`: the bytes still to send; below `maxSize` the log is looked at first. */
    method SavePending(maxSize: nat) returns (remaining: int)
      requires Inv(st, false)
      modifies this
      ensures Inv(st, false) && remaining == |Marked(st.bitmap)| * PAGE_SIZE
      ensures if |Marked(old(st).bitmap)| * PAGE_SIZE < maxSize then Synced(old(st), st) else st == old(st)
    {
      remaining := st.dirtyPages * PAGE_SIZE;
      if remaining < maxSize {
        st := Sync(st);
        remaining := st.dirtyPages * PAGE_SIZE;
      }
    }

    /** `ram_save_iterate`: search and send until the rate limit, here the end of the plan, or until
        a search sends nothing. `sent` is whether the last search did, `ran` how many there were. */
    method Iterate(plan: seq<Instant>) returns (sent: bool, ran: nat)
      requires Inv(st, false) && PlanOk(plan)
      modifies this
      ensures ran <= |plan| && (sent ==> ran == |plan|) && (plan != [] ==> ran > 0)
      ensures RoundResult(old(st), st, PlanWrites(plan, ran), ran, sent)
    {
      st, sent, ran := IterateTurns(st, plan);
    }

    /** `ram_save_complete`, with the guest stopped. */
    method Complete(memory: nat -> nat -> bool)
      requires Inv(st, false)
      modifies this
      ensures CompleteResult(old(st), st)
    {
      st := Sync(st);
      ghost var s1 := st;
      PendingSynced(old(st), s1);
      LastStage(st);
      var sent, turn := true, 0;
      while sent
        invariant st.src == s1.src && st.log == s1.log && Inv(st, true)
        invariant st.base == s1.base && st.bitmap <= s1.bitmap && SameBut(s1, st, s1.bitmap)
        invariant sent ==> st == s1 || (Rested(st) && !CursorPageOnly(s1) && st.lost == s1.lost)
        invariant !sent ==> AllClean(st.bitmap) && st.lost == s1.lost + Dropped(s1)
        invariant !sent && CursorPageOnly(s1) ==> st.dst == s1.dst
        decreases sent, st.bitmap
      {
        st, sent := CompleteOnce(st, memory(turn));
        turn := turn + 1;
      }
      CleanIsSame(st, true);
      LonePageLogged(old(st), s1);
    }
  }
}
