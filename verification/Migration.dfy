/** Live migration of guest RAM: the guest writes while dirty pages are found, sent and loaded.

    Pages are numbered over the ram address space; a block is a run of them. Page contents are
    byte sequences of one page. The destination is what it is after loading everything sent. */
module Migration {
  import opened Values
  import opened Xbzrle

  type Content = seq<Byte>

  /** A RAM block in pages. */
  datatype Block = Block(first: nat, pages: nat)

  datatype Config = Config(blocks: seq<Block>, useXbzrle: bool, cacheSlots: nat, bitsPerLong: nat)

  predicate ConfigOk(c: Config) {
    && c.blocks != [] && 0 < c.cacheSlots && 0 < c.bitsPerLong
    && (forall b :: 0 <= b < |c.blocks| ==> 0 < c.blocks[b].pages)
    && (forall a, b :: 0 <= a < b < |c.blocks| ==>
          c.blocks[a].first + c.blocks[a].pages <= c.blocks[b].first
          || c.blocks[b].first + c.blocks[b].pages <= c.blocks[a].first)
  }

  type ValidConfig = c: Config | ConfigOk(c) witness Config([Block(0, 1)], true, 1, 1)

  /** The RAM list, which does not change while migrating, and the machine's constants. All of
      them stay symbolic. */
  const C: ValidConfig
  const BLOCKS: seq<Block> := C.blocks

  function Page(b: nat, o: nat): nat
    requires b < |BLOCKS|
  {
    BLOCKS[b].first + o
  }

  predicate InBlock(b: nat, p: nat)
    requires b < |BLOCKS|
  {
    BLOCKS[b].first <= p < BLOCKS[b].first + BLOCKS[b].pages
  }

  /** p is a page of some RAM block. */
  predicate IsPage(p: nat) {
    exists b :: 0 <= b < |BLOCKS| && InBlock(b, p)
  }

  /** Pages of different blocks, or different pages of one block, have different numbers. */
  lemma PagesDiffer(a: nat, o: nat, b: nat, q: nat)
    requires a < |BLOCKS| && b < |BLOCKS| && o < BLOCKS[a].pages && q < BLOCKS[b].pages && (a != b || o != q)
    ensures Page(a, o) != Page(b, q)
  {
  }

  /** One slot of the delta cache: a page and the contents last sent for it. */
  datatype Item = Item(page: nat, data: Content)

  /** The migration state of source and destination. `seen` and `offset` are the scan cursor. The
      program has no `lost`: it records the pages whose mark was dropped without their being sent,
      and that the guest has not written since. `base` is the destination's memory at the start and
      `sent` the page records sent since. */
  datatype State = State(
    src: map<nat, Content>, dst: map<nat, Content>,
    log: set<nat>, bitmap: set<nat>, dirtyPages: int,
    seen: Option<nat>, offset: nat, bulk: bool,
    cache: map<nat, Item>, lost: set<nat>,
    base: map<nat, Content>, sent: seq<Sent>)

  predicate PageContent(c: Content) { |c| == PAGE_SIZE }

  function ZeroPage(): (c: Content)
    ensures PageContent(c)
  {
    seq(PAGE_SIZE, _ => 0)
  }

  /** Both sides hold a page of the right size for every page number of a block. */
  ghost predicate Sized(s: State) {
    && (forall p :: IsPage(p) ==> p in s.src && p in s.dst && PageContent(s.src[p]) && PageContent(s.dst[p]))
    && CacheShape(s)
  }

  /** Every entry is a page's contents in its own slot; without deltas, and in the bulk stage, there
      are none. */
  ghost predicate CacheShape(s: State) {
    && (forall k :: k in s.cache ==> PageContent(s.cache[k].data) && s.cache[k].page % C.cacheSlots == k)
    && (s.bulk || !C.useXbzrle ==> s.cache == map[])
  }

  /** What a page record does to the destination's copy of the page. */
  datatype Record = Zero | Full(data: Content) | Delta(bytes: seq<Byte>)

  /** A record for a page of the ram address space. */
  datatype Sent = Sent(page: nat, record: Record)

  /** A record that can be loaded over the old contents. */
  predicate Loadable(old_: Content, r: Record) {
    match r
    case Zero => true
    case Full(c) => PageContent(c)
    case Delta(d) => |d| <= PAGE_SIZE && Decode(d, old_).Some?
  }

  function Loaded(old_: Content, r: Record): Content
    requires Loadable(old_, r)
  {
    match r
    case Zero => ZeroPage()
    case Full(c) => c
    case Delta(d) => Decode(d, old_).value
  }

  /** The destination's memory after one record; None if it cannot be loaded. */
  function LoadOne(m: map<nat, Content>, x: Sent): Option<map<nat, Content>> {
    if x.page in m && Loadable(m[x.page], x.record) then Some(m[x.page := Loaded(m[x.page], x.record)]) else None
  }

  /** The memory after all records, in order. */
  function LoadAll(m: map<nat, Content>, sent: seq<Sent>): Option<map<nat, Content>> {
    if sent == [] then Some(m) else
      var before := LoadAll(m, sent[..|sent| - 1]);
      if before.None? then None else LoadOne(before.value, sent[|sent| - 1])
  }

  /** The destination is what loading everything sent makes of its first memory. */
  ghost predicate Replayed(s: State) {
    LoadAll(s.base, s.sent) == Some(s.dst)
  }

  /** A delta against what the destination holds brings it to the new contents. */
  lemma DeltaLoads(old_: Content, new_: Content, bytes: seq<Byte>)
    requires PageContent(old_) && PageContent(new_) && Encodes(old_, new_, bytes) && |bytes| <= PAGE_SIZE
    ensures Loadable(old_, Delta(bytes)) && Loaded(old_, Delta(bytes)) == new_
  {
    RoundTrip(old_, new_, bytes);
  }

  predicate Cached(s: State, p: nat) {
    p % C.cacheSlots in s.cache && s.cache[p % C.cacheSlots].page == p
  }

  /** `cache_insert`: fails only when the slot has no memory yet and none can be had. */
  function CacheInsert(s: State, p: nat, c: Content, memory: bool): (r: (State, bool))
    ensures r.1 ==> Cached(r.0, p) && r.0.cache[p % C.cacheSlots].data == c && r.0 == s.(cache := r.0.cache)
    ensures r.0.cache - {p % C.cacheSlots} == s.cache - {p % C.cacheSlots}
    ensures !r.1 ==> r.0 == s && !memory && p % C.cacheSlots !in s.cache
  {
    var slot := p % C.cacheSlots;
    if slot in s.cache || memory then (s.(cache := s.cache[slot := Item(p, c)]), true) else (s, false)
  }

  /** Every page that was not lost is marked somewhere or equal on both sides. */
  ghost predicate Tracked(s: State) {
    forall p :: IsPage(p) && p !in s.log && p !in s.bitmap && p !in s.lost ==>
      p in s.src && p in s.dst && s.src[p] == s.dst[p]
  }

  /** What the reads of a guest page see while it is saved: the zero test, the copy into the delta
      buffer, and the bytes sent. They differ only if the guest is writing the page. */
  datatype Reads = Reads(test: Content, copy: Content, sent: Content)

  ghost predicate ReadOk(s: State, p: nat, c: Content) {
    PageContent(c) && p in s.src && (c == s.src[p] || p in s.log)
  }

  ghost predicate ReadsOk(s: State, p: nat, r: Reads) {
    ReadOk(s, p, r.test) && ReadOk(s, p, r.copy) && ReadOk(s, p, r.sent)
  }

  /** Everything but the destination and the cache is as before. */
  predicate SameSource(s: State, t: State) {
    && t.src == s.src && t.log == s.log && t.bitmap == s.bitmap && t.dirtyPages == s.dirtyPages
    && t.seen == s.seen && t.offset == s.offset && t.bulk == s.bulk && t.lost == s.lost && t.base == s.base
  }

  /** Only page p changed at the destination, and a cache entry of another page is an old one. */
  ghost predicate OnlyPage(s: State, t: State, p: nat) {
    && (forall q :: q in s.dst && q != p ==> q in t.dst && t.dst[q] == s.dst[q])
    && (forall k :: k in t.cache && t.cache[k].page != p ==> k in s.cache && t.cache[k] == s.cache[k])
  }

  /** Page p is up to date at the destination unless the guest wrote it meanwhile. */
  ghost predicate Delivered(t: State, p: nat) {
    p in t.src && p in t.dst && (t.src[p] == t.dst[p] || p in t.log)
  }

  ghost predicate EntryTrue(t: State, p: nat) {
    forall k :: k in t.cache && t.cache[k].page == p ==> p in t.dst && t.cache[k].data == t.dst[p]
  }

  /** The record is sent, and loaded at the destination. */
  function Deliver(s: State, p: nat, r: Record): State
    requires p in s.dst && Loadable(s.dst[p], r)
  {
    s.(dst := s.dst[p := Loaded(s.dst[p], r)], sent := s.sent + [Sent(p, r)])
  }

  lemma DeliverReplayed(s: State, p: nat, r: Record)
    requires Replayed(s) && p in s.dst && Loadable(s.dst[p], r)
    ensures Replayed(Deliver(s, p, r))
  {
    var t := Deliver(s, p, r);
    assert t.sent[..|t.sent| - 1] == s.sent;
  }

  method Send(s: State, p: nat, r: Record) returns (t: State)
    requires Replayed(s) && p in s.dst && Loadable(s.dst[p], r)
    ensures t == Deliver(s, p, r) && Replayed(t)
  {
    DeliverReplayed(s, p, r);
    t := Deliver(s, p, r);
  }

  /** One record more was sent, and it is one for page p. */
  predicate OneMore(sent: seq<Sent>, sent': seq<Sent>, p: nat) {
    |sent'| == |sent| + 1 && sent'[..|sent|] == sent && sent'[|sent|].page == p
  }

  /** The page is in the cache with these contents. */
  predicate CachedAs(s: State, p: nat, c: Content) {
    Cached(s, p) && s.cache[p % C.cacheSlots].data == c
  }

  ghost predicate SavedOk(s: State, t: State, p: nat, last: bool) {
    && SameSource(s, t) && OnlyPage(s, t, p) && Delivered(t, p)
    && (p in t.dst && PageContent(t.dst[p]))
    && CacheShape(t) && (!last ==> EntryTrue(t, p)) && Replayed(t)
  }

  /** The state in which page p may be saved. */
  ghost predicate CanSave(s: State, p: nat) {
    && p in s.src && p in s.dst && PageContent(s.src[p]) && PageContent(s.dst[p])
    && CacheShape(s) && EntryTrue(s, p) && Replayed(s)
  }

  /** The part of `save_xbzrle_page` for a page in the cache, which is updated with what is sent. */
  method SaveCached(s0: State, p: nat, last: bool, got: Reads) returns (s: State, sent: bool)
    requires CanSave(s0, p) && ReadsOk(s0, p, got) && !s0.bulk && C.useXbzrle && Cached(s0, p)
    ensures SavedOk(s0, s, p, last)
    ensures sent <==> !CachedAs(s0, p, got.copy)
    ensures if sent then OneMore(s0.sent, s.sent, p) else s == s0
  {
    var slot := p % C.cacheSlots;
    var prev := s0.cache[slot].data;
    var encoded := EncodeBuffer(prev, got.copy, PAGE_SIZE);
    match encoded
    case Unchanged =>
      return s0, false;
    case Overflow =>
      s := s0;
      if !last {
        s := s.(cache := s.cache[slot := Item(p, got.sent)]);
      }
      s := Send(s, p, Full(got.sent));
      sent := true;
    case Encoded(bytes) =>
      s := s0;
      if !last {
        s := s.(cache := s.cache[slot := Item(p, got.copy)]);
      }
      DeltaLoads(prev, got.copy, bytes);
      s := Send(s, p, Delta(bytes));
      sent := true;
  }

  /** `save_xbzrle_page` and the plain send that follows when it returns -1. Not sent is its
      return of 0 for an unmodified page. */
  method SaveXbzrlePage(s0: State, p: nat, last: bool, got: Reads, memory: bool) returns (s: State, sent: bool)
    requires CanSave(s0, p) && ReadsOk(s0, p, got) && !s0.bulk && C.useXbzrle
    ensures SavedOk(s0, s, p, last)
    ensures sent <==> !CachedAs(s0, p, got.copy)
    ensures if sent then OneMore(s0.sent, s.sent, p) else s == s0
  {
    if !Cached(s0, p) {
      s, sent := s0, true;
      if !last {
        var (s1, inserted) := CacheInsert(s0, p, got.copy, memory);
        if inserted {
          s := Send(s1, p, Full(got.copy));
          return;
        }
      }
      s := Send(s0, p, Full(got.sent));
      return;
    }
    s, sent := SaveCached(s0, p, last, got);
  }

  /** `ram_save_page`. */
  method RamSavePage(s0: State, p: nat, last: bool, got: Reads, memory: bool) returns (s: State, sent: bool)
    requires CanSave(s0, p) && ReadsOk(s0, p, got)
    ensures SavedOk(s0, s, p, last)
    ensures sent <==> got.test == ZeroPage() || s0.bulk || !C.useXbzrle || !CachedAs(s0, p, got.copy)
    ensures if sent then OneMore(s0.sent, s.sent, p) else s == s0
    ensures got.test == ZeroPage() ==> s.sent == s0.sent + [Sent(p, Zero)]
    ensures got.test != ZeroPage() && (s0.bulk || !C.useXbzrle) ==> s.sent == s0.sent + [Sent(p, Full(got.sent))]
    ensures s0.bulk ==> s.cache == s0.cache
  {
    if got.test == ZeroPage() {
      s := Send(s0, p, Zero);
      if !s.bulk && C.useXbzrle {
        var (s1, _) := CacheInsert(s, p, ZeroPage(), memory);
        s := s1;
      }
      sent := true;
    } else if !s0.bulk && C.useXbzrle {
      s, sent := SaveXbzrlePage(s0, p, last, got, memory);
    } else {
      s := Send(s0, p, Full(got.sent));
      sent := true;
    }
  }
}
