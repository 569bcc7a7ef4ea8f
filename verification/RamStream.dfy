/** The RAM section of a migration stream: what the saver puts and what the loader makes of it. */
module RamStream {
  import opened Values
  import opened Arith
  import opened BigEndian

  const COMPRESS := 0x02
  const MEM_SIZE := 0x04
  const PAGE := 0x08
  const EOS := 0x10
  const CONTINUE := 0x20
  const XBZRLE := 0x40
  const HOOK := 0x80

  const ENCODING_FLAG_XBZRLE: Byte := 1

  // ---- Reading bytes ----

  /** Reading n bytes: what they are and where the reader then stands. */
  datatype Got = Short | Got(bytes: Bytes, next: nat)

  function Get(stream: Bytes, pos: nat, n: nat): (g: Got)
    ensures g.Got? ==> |g.bytes| == n
  {
    if |stream| < pos + n then Short else Got(stream[pos..pos + n], pos + n)
  }

  // ---- Blocks and records ----

  type Blocks = seq<RamBlock>
  type Records = seq<Record>

  datatype RamBlock = RamBlock(id: Bytes, length: nat)

  /** A block name is a C string that fits its length byte; no block is empty. */
  ghost predicate BlockOk(b: RamBlock) {
    |b.id| < 256 && 0 !in b.id && 0 < b.length < WORD_LIMIT
  }

  ghost predicate BlocksOk(blocks: Blocks) {
    forall i :: 0 <= i < |blocks| ==> BlockOk(blocks[i])
  }

  ghost predicate NamesDiffer(blocks: Blocks) {
    forall i, j :: 0 <= i < j < |blocks| ==> blocks[i].id != blocks[j].id
  }

  /** The bytes up to the first NUL, which is what a comparison of C strings sees. */
  function CString(s: Bytes): Bytes {
    if s == [] || s[0] == 0 then [] else [s[0]] + CString(s[1..])
  }

  lemma {:induction false} CStringId(s: Bytes)
    requires 0 !in s
    ensures CString(s) == s
  {
    if s != [] {
      CStringId(s[1..]);
    }
  }

  datatype Body = Fill(ch: Byte) | Full(data: Bytes) | Delta(data: Bytes)

  /** A page record: a block, by its place in a block list, and an offset in it. */
  datatype Record = Record(block: nat, offset: nat, body: Body)

  ghost predicate BodyOk(b: Body) {
    match b
    case Fill(_) => true
    case Full(d) => |d| == PAGE_SIZE
    case Delta(d) => |d| <= PAGE_SIZE
  }

  ghost predicate RecordOk(blocks: Blocks, r: Record) {
    r.block < |blocks| && FlagBits(r.offset) == 0 && r.offset + PAGE_SIZE <= WORD_LIMIT && BodyOk(r.body)
  }

  function FlagOf(b: Body): nat {
    match b
    case Fill(_) => COMPRESS
    case Full(_) => PAGE
    case Delta(_) => XBZRLE
  }

  /** offset | cont | flag: the bits are disjoint, so this is a sum. */
  function Header(offset: nat, cont: bool, flag: nat): nat {
    offset + (if cont then CONTINUE else 0) + flag
  }

  /** addr & ~TARGET_PAGE_MASK: the remainder by the page size. */
  function FlagBits(addr: nat): nat { addr % PAGE_SIZE }

  /** addr & TARGET_PAGE_MASK. */
  function PageBits(addr: nat): nat { addr / PAGE_SIZE * PAGE_SIZE }

  /** flags & flag, for a flag of one bit. */
  predicate Has(flags: nat, flag: nat)
    requires flag > 0
  {
    flags / flag % 2 == 1
  }

  function BodyBytes(b: Body): Bytes {
    match b
    case Fill(ch) => [ch]
    case Full(d) => d
    case Delta(d) => [ENCODING_FLAG_XBZRLE] + Put(|d|, 2) + d
  }

  function IdBytes(id: Bytes): Bytes
    requires |id| < 256
  {
    [|id|] + id
  }

  // ---- The loader ----

  /** The first block of that name from place k on. */
  function FindBlock(blocks: Blocks, id: Bytes, k: nat): (r: Option<nat>)
    requires k <= |blocks|
    ensures r.Some? ==> k <= r.value < |blocks| && blocks[r.value].id == CString(id)
    ensures r.None? ==> forall i :: k <= i < |blocks| ==> blocks[i].id != CString(id)
    decreases |blocks| - k
  {
    if k == |blocks| then None else if blocks[k].id == CString(id) then Some(k) else FindBlock(blocks, id, k + 1)
  }

  datatype Place = NoPlace | Place(block: nat, next: nat)

  /** A block name in the stream. */
  function NamedPlace(blocks: Blocks, stream: Bytes, pos: nat): (p: Place)
    ensures p.Place? ==> pos < p.next <= |stream| && p.block < |blocks|
  {
    var len := Get(stream, pos, 1);
    if len.Short? then NoPlace else
      var id := Get(stream, len.next, len.bytes[0]);
      if id.Short? then NoPlace else
        var b := FindBlock(blocks, id.bytes, 0);
        if b.None? then NoPlace else Place(b.value, id.next)
  }

  /** `host_from_stream_offset`: the block of a record, read from the stream or remembered. */
  function PlaceOf(blocks: Blocks, cur: Option<nat>, flags: nat, stream: Bytes, pos: nat): (p: Place)
    requires pos <= |stream|
    ensures p.Place? ==> pos <= p.next <= |stream|
  {
    if !Has(flags, CONTINUE) then NamedPlace(blocks, stream, pos)
    else if cur.None? then NoPlace else Place(cur.value, pos)
  }

  /** What one turn of the loop of `ram_load` makes of the stream. */
  datatype Item = Bad | End(next: nat) | Listed(next: nat) | Stored(r: Record, next: nat)

  /** `load_xbzrle` up to the decoding. */
  function DeltaItem(block: nat, offset: nat, stream: Bytes, pos: nat): (i: Item)
    ensures i.Bad? || (i.Stored? && pos <= i.next <= |stream|)
  {
    var flag, len := Get(stream, pos, 1), Get(stream, pos + 1, 2);
    if flag.Short? || len.Short? || flag.bytes[0] != ENCODING_FLAG_XBZRLE then Bad else
      var data := Get(stream, len.next, Value(len.bytes));
      if Value(len.bytes) > PAGE_SIZE || data.Short? then Bad
      else Stored(Record(block, offset, Delta(data.bytes)), data.next)
  }

  function BodyItem(block: nat, offset: nat, flags: nat, stream: Bytes, pos: nat): (i: Item)
    ensures i.Bad? || (i.Stored? && pos <= i.next <= |stream|)
  {
    if Has(flags, COMPRESS) then
      var ch := Get(stream, pos, 1);
      if ch.Short? then Bad else Stored(Record(block, offset, Fill(ch.bytes[0])), ch.next)
    else if Has(flags, PAGE) then
      var data := Get(stream, pos, PAGE_SIZE);
      if data.Short? then Bad else Stored(Record(block, offset, Full(data.bytes)), data.next)
    else DeltaItem(block, offset, stream, pos)
  }

  /** One entry of the block list: its length and where the next one begins, if the loader has a
      block of that name and length. */
  datatype Entry = NoEntry | Entry(length: nat, next: nat)

  function EntryItem(blocks: Blocks, stream: Bytes, pos: nat): (e: Entry)
    ensures e.Entry? ==> pos < e.next <= |stream|
  {
    var b := NamedPlace(blocks, stream, pos);
    if b.NoPlace? then NoEntry else
      var length := Get(stream, b.next, 8);
      if length.Short? || blocks[b.block].length != Value(length.bytes) then NoEntry
      else Entry(Value(length.bytes), length.next)
  }

  ghost predicate EntriesAdvance(entry: nat -> Entry, size: nat) {
    forall pos: nat :: entry(pos).Entry? ==> pos < entry(pos).next <= size
  }

  function EntryReader(blocks: Blocks, stream: Bytes): (f: nat -> Entry)
    ensures EntriesAdvance(f, |stream|)
  {
    (pos: nat) => EntryItem(blocks, stream, pos)
  }

  /** The block list of the setup section, which is read until `total` bytes are accounted for, given
      how one entry is read. The subtraction wraps around as 64-bit numbers do. */
  function ListItem(entry: nat -> Entry, size: nat, total: nat, pos: nat): (i: Item)
    requires EntriesAdvance(entry, size) && pos <= size
    ensures i.Bad? || (i.Listed? && pos <= i.next <= size)
    decreases size - pos
  {
    if total == 0 then Listed(pos) else
      match entry(pos)
      case NoEntry => Bad
      case Entry(length, next) => ListItem(entry, size, (total - length) % WORD_LIMIT, next)
  }

  function FlaggedItem(blocks: Blocks, cur: Option<nat>, flags: nat, offset: nat, stream: Bytes, pos: nat): (i: Item)
    requires pos <= |stream|
    ensures i.Bad? || pos <= i.next <= |stream|
  {
    if Has(flags, MEM_SIZE) then ListItem(EntryReader(blocks, stream), |stream|, offset, pos)
    else if Has(flags, COMPRESS) || Has(flags, PAGE) || Has(flags, XBZRLE) then
      var p := PlaceOf(blocks, cur, flags, stream, pos);
      if p.NoPlace? then Bad else BodyItem(p.block, offset, flags, stream, p.next)
    else if Has(flags, HOOK) then Bad
    else if Has(flags, EOS) then End(pos)
    else Bad
  }

  function LoadItem(blocks: Blocks, cur: Option<nat>, stream: Bytes, pos: nat): (i: Item)
    ensures i.Bad? || pos < i.next <= |stream|
  {
    var head := Get(stream, pos, 8);
    if head.Short? then Bad else
      var addr := Value(head.bytes);
      FlaggedItem(blocks, cur, FlagBits(addr), PageBits(addr), stream, head.next)
  }

  /** The end of a call of `ram_load`: whether it succeeded, the memory it leaves, the block it
      remembers and where it stands in the stream. */
  datatype Outcome<M> = Outcome(ok: bool, mem: M, cur: Option<nat>, next: nat)

  /** What carrying out a record makes of the memory; None if it fails. */
  type Carry<!M> = (M, Record) -> Option<M>

  type ItemReader = (Option<nat>, nat) -> Item

  /** Reading one item from a position moves on, and not past the end. */
  ghost predicate Advances(item: ItemReader, size: nat) {
    forall cur, pos: nat :: item(cur, pos).Bad? || pos < item(cur, pos).next <= size
  }

  /** The loop of `ram_load`, given how it reads one item and how a record is carried out. */
  function Load<M>(item: ItemReader, size: nat, cur: Option<nat>, pos: nat, mem: M, carry: Carry<M>): Outcome<M>
    requires Advances(item, size)
    decreases size - pos
  {
    match item(cur, pos)
    case Bad => Outcome(false, mem, cur, pos)
    case End(next) => Outcome(true, mem, cur, next)
    case Listed(next) => Load(item, size, cur, next, mem, carry)
    case Stored(r, next) =>
      match carry(mem, r)
      case None => Outcome(false, mem, cur, pos)
      case Some(mem') => Load(item, size, Some(r.block), next, mem', carry)
  }

  /** How `ram_load` reads one item of a stream. */
  function Reader(blocks: Blocks, stream: Bytes): (f: ItemReader)
    ensures Advances(f, |stream|)
  {
    (cur: Option<nat>, pos: nat) => LoadItem(blocks, cur, stream, pos)
  }

  /** The block remembered before record k. */
  function CurAt(cur: Option<nat>, recs: Records, k: nat): Option<nat>
    requires k <= |recs|
  {
    if k == 0 then cur else Some(recs[k - 1].block)
  }

  /** The reader finds the records at the given positions, one after the other, and the end mark. */
  ghost predicate Finds(item: ItemReader, cur: Option<nat>, recs: Records, starts: seq<nat>, end: nat) {
    && |starts| == |recs| + 1
    && (forall k :: 0 <= k < |recs| ==> FindsOne(item, cur, recs, starts, k))
    && item(CurAt(cur, recs, |recs|), starts[|recs|]) == End(end)
  }

  ghost predicate FindsOne(item: ItemReader, cur: Option<nat>, recs: Records, starts: seq<nat>, k: nat)
    requires k < |recs| && |starts| == |recs| + 1
  {
    item(CurAt(cur, recs, k), starts[k]) == Stored(recs[k], starts[k + 1])
  }

  /** All records from place k on, carried out in order; None if one fails. */
  function CarryAll<M>(carry: Carry<M>, mem: M, recs: Records, k: nat): Option<M>
    requires k <= |recs|
    decreases |recs| - k
  {
    if k == |recs| then Some(mem) else
      match carry(mem, recs[k])
      case None => None
      case Some(mem') => CarryAll(carry, mem', recs, k + 1)
  }

  /** The loop carries out the records it finds, in order, and fails exactly if one of them does. */
  lemma {:induction false} LoadsFound<M>(item: ItemReader, size: nat, cur: Option<nat>, recs: Records, starts: seq<nat>,
                                         end: nat, k: nat, mem: M, carry: Carry<M>)
    requires Advances(item, size) && Finds(item, cur, recs, starts, end) && k <= |recs|
    ensures Carried(Load(item, size, CurAt(cur, recs, k), starts[k], mem, carry),
                    CarryAll(carry, mem, recs, k), CurAt(cur, recs, |recs|), end)
    decreases |recs| - k
  {
    if k < |recs| {
      assert FindsOne(item, cur, recs, starts, k);
      var next := carry(mem, recs[k]);
      if next.Some? {
        LoadsFound(item, size, cur, recs, starts, end, k + 1, next.value, carry);
      }
    }
  }

  /** A call succeeds exactly if the records can all be carried out, and then leaves that memory. */
  ghost predicate Carried<M>(o: Outcome<M>, mem: Option<M>, cur: Option<nat>, next: nat) {
    (o.ok <==> mem.Some?) && (o.ok ==> o == Outcome(true, mem.value, cur, next))
  }

  // ---- The loader reads what the saver wrote ----

  lemma FlagBitsSum(offset: nat, f: nat)
    requires FlagBits(offset) == 0 && f < PAGE_SIZE
    ensures FlagBits(offset + f) == f && PageBits(offset + f) == offset
  {
    var q := offset / PAGE_SIZE;
    assert offset == q * PAGE_SIZE;
    DivOfMultiple(q, PAGE_SIZE, f);
  }

  lemma HeaderParts(offset: nat, cont: bool, flag: nat)
    requires FlagBits(offset) == 0 && offset + PAGE_SIZE <= WORD_LIMIT && flag < 0x80
    ensures var h := Header(offset, cont, flag);
      && h < WORD_LIMIT && PageBits(h) == offset && FlagBits(h) == (if cont then CONTINUE else 0) + flag
  {
    FlagBitsSum(offset, (if cont then CONTINUE else 0) + flag);
  }

  lemma WordRead(v: nat)
    requires v < WORD_LIMIT
    ensures Value(Put(v, 8)) == v
  {
    Limits();
    ValueOfPut(v, 8);
  }

  /** The flags of a record, taken apart. */
  lemma FlagsRead(cont: bool, b: Body)
    ensures var flags := (if cont then CONTINUE else 0) + FlagOf(b);
      && !Has(flags, MEM_SIZE) && (Has(flags, CONTINUE) <==> cont)
      && (Has(flags, COMPRESS) <==> b.Fill?) && (Has(flags, PAGE) <==> b.Full?) && (Has(flags, XBZRLE) <==> b.Delta?)
  {
    assert !Has(2, 4) && !Has(34, 4) && !Has(8, 4) && !Has(40, 4) && !Has(64, 4) && !Has(96, 4);
    assert Has(2, 2) && Has(34, 2) && !Has(8, 2) && !Has(40, 2) && !Has(64, 2) && !Has(96, 2);
    assert !Has(2, 8) && !Has(34, 8) && Has(8, 8) && Has(40, 8) && !Has(64, 8) && !Has(96, 8);
  }

  /** The loader's block of the same name as the saver's block b. */
  function Twin(src: Blocks, dst: Blocks, b: nat): Option<nat>
    requires b < |src|
  {
    FindBlock(dst, src[b].id, 0)
  }

  /** The saver's last block, if any, is the one the loader remembers. */
  ghost predicate Agree(src: Blocks, dst: Blocks, last: Option<nat>, cur: Option<nat>) {
    last.Some? ==> last.value < |src| && cur.Some? && cur == Twin(src, dst, last.value)
  }

  lemma NameRead(dst: Blocks, id: Bytes, stream: Bytes, pos: nat)
    requires |id| < 256 && Piece(stream, pos, IdBytes(id))
    ensures var b := FindBlock(dst, id, 0);
      NamedPlace(dst, stream, pos) == if b.None? then NoPlace else Place(b.value, pos + 1 + |id|)
  {
    PieceSplit(stream, pos, [|id|], id);
  }

  lemma DeltaRead(block: nat, offset: nat, d: Bytes, stream: Bytes, pos: nat)
    requires |d| <= PAGE_SIZE && Piece(stream, pos, BodyBytes(Delta(d)))
    ensures DeltaItem(block, offset, stream, pos) == Stored(Record(block, offset, Delta(d)), pos + 3 + |d|)
  {
    var head := [ENCODING_FLAG_XBZRLE] + Put(|d|, 2);
    PieceSplit(stream, pos, head, d);
    PieceSplit(stream, pos, [ENCODING_FLAG_XBZRLE], Put(|d|, 2));
    Limits();
    ValueOfPut(|d|, 2);
  }

  lemma BodyRead(block: nat, offset: nat, flags: nat, b: Body, stream: Bytes, pos: nat)
    requires BodyOk(b) && Has(flags, FlagOf(b)) && Piece(stream, pos, BodyBytes(b))
    requires Has(flags, COMPRESS) ==> b.Fill?
    requires Has(flags, PAGE) ==> b.Full?
    ensures BodyItem(block, offset, flags, stream, pos) == Stored(Record(block, offset, b), pos + |BodyBytes(b)|)
  {
    if b.Delta? {
      DeltaRead(block, offset, b.data, stream, pos);
    }
  }

  /** A record in the stream, as `save_block_hdr` and what follows it put it; `last` is
      `last_sent_block`. */
  ghost predicate RecordAt(stream: Bytes, pos: nat, src: Blocks, last: Option<nat>, r: Record)
    requires r.block < |src| && |src[r.block].id| < 256
  {
    var cont := last == Some(r.block);
    var id := if cont then [] else IdBytes(src[r.block].id);
    && Piece(stream, pos, Put(Header(r.offset, cont, FlagOf(r.body)), 8))
    && Piece(stream, pos + 8, id) && Piece(stream, pos + 8 + |id|, BodyBytes(r.body))
  }

  function RecordLength(src: Blocks, last: Option<nat>, r: Record): nat
    requires r.block < |src|
  {
    8 + (if last == Some(r.block) then 0 else 1 + |src[r.block].id|) + |BodyBytes(r.body)|
  }

  /** The place the loader finds is the twin of the block the saver meant. */
  lemma PlaceRead(src: Blocks, dst: Blocks, last: Option<nat>, cur: Option<nat>, b: nat, flags: nat, stream: Bytes,
                  pos: nat)
    requires b < |src| && |src[b].id| < 256 && Agree(src, dst, last, cur) && Twin(src, dst, b).Some? && pos <= |stream|
    requires Has(flags, CONTINUE) <==> last == Some(b)
    requires last != Some(b) ==> Piece(stream, pos, IdBytes(src[b].id))
    ensures PlaceOf(dst, cur, flags, stream, pos)
         == Place(Twin(src, dst, b).value, pos + if last == Some(b) then 0 else 1 + |src[b].id|)
  {
    if last != Some(b) {
      NameRead(dst, src[b].id, stream, pos);
    }
  }

  lemma Dispatched(dst: Blocks, cur: Option<nat>, flags: nat, offset: nat, stream: Bytes, pos: nat, block: nat,
                   next: nat)
    requires !Has(flags, MEM_SIZE) && (Has(flags, COMPRESS) || Has(flags, PAGE) || Has(flags, XBZRLE))
    requires pos <= |stream| && PlaceOf(dst, cur, flags, stream, pos) == Place(block, next)
    ensures FlaggedItem(dst, cur, flags, offset, stream, pos) == BodyItem(block, offset, flags, stream, next)
  {
  }

  /** What follows a record's header. */
  lemma FlaggedRead(src: Blocks, dst: Blocks, last: Option<nat>, cur: Option<nat>, r: Record, flags: nat,
                    stream: Bytes, pos: nat, at: nat)
    requires r.block < |src| && |src[r.block].id| < 256 && Agree(src, dst, last, cur) && Twin(src, dst, r.block).Some?
    requires pos <= |stream| && (last != Some(r.block) ==> Piece(stream, pos, IdBytes(src[r.block].id)))
    requires at == pos + (if last == Some(r.block) then 0 else 1 + |src[r.block].id|)
    requires BodyOk(r.body) && Piece(stream, at, BodyBytes(r.body))
    requires !Has(flags, MEM_SIZE) && (Has(flags, CONTINUE) <==> last == Some(r.block)) && Has(flags, FlagOf(r.body))
    requires (Has(flags, COMPRESS) <==> r.body.Fill?) && (Has(flags, PAGE) <==> r.body.Full?)
    ensures FlaggedItem(dst, cur, flags, r.offset, stream, pos)
         == Stored(Record(Twin(src, dst, r.block).value, r.offset, r.body), at + |BodyBytes(r.body)|)
  {
    var twin := Twin(src, dst, r.block).value;
    PlaceRead(src, dst, last, cur, r.block, flags, stream, pos);
    Dispatched(dst, cur, flags, r.offset, stream, pos, twin, at);
    BodyRead(twin, r.offset, flags, r.body, stream, at);
  }

  lemma HeaderRead(dst: Blocks, cur: Option<nat>, offset: nat, cont: bool, flag: nat, stream: Bytes, pos: nat)
    requires FlagBits(offset) == 0 && offset + PAGE_SIZE <= WORD_LIMIT && flag < 0x80
    requires Piece(stream, pos, Put(Header(offset, cont, flag), 8))
    ensures LoadItem(dst, cur, stream, pos)
         == FlaggedItem(dst, cur, (if cont then CONTINUE else 0) + flag, offset, stream, pos + 8)
  {
    HeaderParts(offset, cont, flag);
    WordRead(Header(offset, cont, flag));
  }

  /** One record read back: the same offset and body in the block of the same name, which the
      loader then remembers, as the saver does its own. */
  lemma RecordRead(src: Blocks, dst: Blocks, last: Option<nat>, cur: Option<nat>, r: Record, stream: Bytes, pos: nat)
    requires RecordOk(src, r) && |src[r.block].id| < 256 && Agree(src, dst, last, cur) && Twin(src, dst, r.block).Some?
    requires RecordAt(stream, pos, src, last, r)
    ensures LoadItem(dst, cur, stream, pos)
         == Stored(Record(Twin(src, dst, r.block).value, r.offset, r.body), pos + RecordLength(src, last, r))
  {
    var cont := last == Some(r.block);
    HeaderRead(dst, cur, r.offset, cont, FlagOf(r.body), stream, pos);
    FlagsRead(cont, r.body);
    var at := pos + 8 + if cont then 0 else 1 + |src[r.block].id|;
    FlaggedRead(src, dst, last, cur, r, (if cont then CONTINUE else 0) + FlagOf(r.body), stream, pos + 8, at);
  }

  // ---- One round ----

  ghost predicate NamesOk(src: Blocks) {
    forall i :: 0 <= i < |src| ==> |src[i].id| < 256
  }

  ghost predicate RecordsOk(src: Blocks, recs: Records) {
    forall k :: 0 <= k < |recs| ==> RecordOk(src, recs[k])
  }

  /** `last_sent_block` before record k; with k the number of records, after them all. */
  function Before(last: Option<nat>, recs: Records, k: nat): Option<nat>
    requires k <= |recs|
  {
    if k == 0 then last else Some(recs[k - 1].block)
  }

  /** Where record k begins, from the start of the section. */
  ghost function RecordPos(src: Blocks, last: Option<nat>, recs: Records, k: nat): nat
    requires k <= |recs| && RecordsOk(src, recs)
  {
    if k == 0 then 0 else
      RecordPos(src, last, recs, k - 1) + RecordLength(src, Before(last, recs, k - 1), recs[k - 1])
  }

  ghost function SectionLength(src: Blocks, last: Option<nat>, recs: Records): nat
    requires RecordsOk(src, recs)
  {
    RecordPos(src, last, recs, |recs|) + 8
  }

  ghost predicate FirstRecordsAt(stream: Bytes, pos: nat, src: Blocks, last: Option<nat>, recs: Records, n: nat)
    requires n <= |recs| && NamesOk(src) && RecordsOk(src, recs)
  {
    forall k :: 0 <= k < n ==> NthRecordAt(stream, pos, src, last, recs, k)
  }

  ghost predicate NthRecordAt(stream: Bytes, pos: nat, src: Blocks, last: Option<nat>, recs: Records, k: nat)
    requires k < |recs| && NamesOk(src) && RecordsOk(src, recs)
  {
    RecordAt(stream, pos + RecordPos(src, last, recs, k), src, Before(last, recs, k), recs[k])
  }

  /** The records of one round and the end mark. */
  ghost predicate SectionAt(stream: Bytes, pos: nat, src: Blocks, last: Option<nat>, recs: Records)
    requires NamesOk(src) && RecordsOk(src, recs)
  {
    && FirstRecordsAt(stream, pos, src, last, recs, |recs|)
    && Piece(stream, pos + RecordPos(src, last, recs, |recs|), Put(EOS, 8))
  }

  /** `meant` are the records as the loader is to carry them out: in its own block of the same name,
      with the same offset and body. */
  ghost predicate Meant(src: Blocks, dst: Blocks, recs: Records, meant: Records)
    requires RecordsOk(src, recs)
  {
    |meant| == |recs| && forall k :: 0 <= k < |recs| ==> MeantFor(src, dst, recs[k], meant[k])
  }

  ghost predicate MeantFor(src: Blocks, dst: Blocks, r: Record, m: Record)
    requires r.block < |src|
  {
    Twin(src, dst, r.block) == Some(m.block) && m.offset == r.offset && m.body == r.body
  }

  lemma EndRead(blocks: Blocks, cur: Option<nat>, stream: Bytes, pos: nat)
    requires Piece(stream, pos, Put(EOS, 8))
    ensures LoadItem(blocks, cur, stream, pos) == End(pos + 8)
  {
    HeaderRead(blocks, cur, 0, false, EOS, stream, pos);
  }

  /** Where the records of a section begin, and its end mark. */
  ghost function Starts(pos: nat, src: Blocks, last: Option<nat>, recs: Records): (r: seq<nat>)
    requires RecordsOk(src, recs)
    ensures |r| == |recs| + 1 && forall k :: 0 <= k <= |recs| ==> r[k] == pos + RecordPos(src, last, recs, k)
  {
    seq(|recs| + 1, k requires 0 <= k <= |recs| => pos + RecordPos(src, last, recs, k))
  }

  /** What the loader remembers before record k agrees with what the saver sent last. */
  lemma AgreeAt(src: Blocks, dst: Blocks, last: Option<nat>, cur: Option<nat>, recs: Records, meant: Records, k: nat)
    requires RecordsOk(src, recs) && Meant(src, dst, recs, meant) && k <= |recs| && Agree(src, dst, last, cur)
    ensures Agree(src, dst, Before(last, recs, k), CurAt(cur, meant, k))
  {
    if k > 0 {
      assert MeantFor(src, dst, recs[k - 1], meant[k - 1]);
    }
  }

  lemma FoundAt(src: Blocks, dst: Blocks, last: Option<nat>, cur: Option<nat>, r: Record, m: Record,
                stream: Bytes, pos: nat, next: nat)
    requires RecordOk(src, r) && |src[r.block].id| < 256 && Agree(src, dst, last, cur) && MeantFor(src, dst, r, m)
    requires RecordAt(stream, pos, src, last, r) && next == pos + RecordLength(src, last, r)
    ensures Reader(dst, stream)(cur, pos) == Stored(m, next)
  {
    RecordRead(src, dst, last, cur, r, stream, pos);
  }

  /** In the section of one round the loader finds each record, in the block and at the offset the
      saver meant, because what it remembers always agrees with what the saver sent last. */
  lemma SectionFound(src: Blocks, dst: Blocks, last: Option<nat>, cur: Option<nat>, recs: Records, meant: Records,
                     stream: Bytes, pos: nat, starts: seq<nat>, k: nat)
    requires NamesOk(src) && RecordsOk(src, recs) && Meant(src, dst, recs, meant) && k < |recs|
    requires |starts| == |recs| + 1
    requires Agree(src, dst, last, cur) && NthRecordAt(stream, pos, src, last, recs, k)
    requires starts[k] == pos + RecordPos(src, last, recs, k)
    requires starts[k + 1] == pos + RecordPos(src, last, recs, k + 1)
    ensures FindsOne(Reader(dst, stream), cur, meant, starts, k)
  {
    AgreeAt(src, dst, last, cur, recs, meant, k);
    FoundAt(src, dst, Before(last, recs, k), CurAt(cur, meant, k), recs[k], meant[k], stream, starts[k], starts[k + 1]);
  }

  lemma EndFound(dst: Blocks, cur: Option<nat>, stream: Bytes, pos: nat)
    requires Piece(stream, pos, Put(EOS, 8))
    ensures Reader(dst, stream)(cur, pos) == End(pos + 8)
  {
    EndRead(dst, cur, stream, pos);
  }

  /** One call of `ram_load` on what one round wrote: it carries out each record in the block and at
      the offset the saver meant, in order, stops after the end mark, and remembers the block the
      saver sent last. It fails exactly if some delta does not decode. */
  lemma SectionLoads<M>(src: Blocks, dst: Blocks, last: Option<nat>, cur: Option<nat>,
                     recs: Records, meant: Records, stream: Bytes, pos: nat, mem: M, carry: Carry<M>)
    requires NamesOk(src) && RecordsOk(src, recs) && Meant(src, dst, recs, meant)
    requires Agree(src, dst, last, cur) && SectionAt(stream, pos, src, last, recs)
    ensures Carried(Load(Reader(dst, stream), |stream|, cur, pos, mem, carry),
                    CarryAll(carry, mem, meant, 0), CurAt(cur, meant, |recs|), pos + SectionLength(src, last, recs))
    ensures Agree(src, dst, Before(last, recs, |recs|), CurAt(cur, meant, |recs|))
  {
    var reader, starts, end := Reader(dst, stream), Starts(pos, src, last, recs), pos + SectionLength(src, last, recs);
    forall k | 0 <= k < |recs| ensures FindsOne(reader, cur, meant, starts, k) {
      assert NthRecordAt(stream, pos, src, last, recs, k);
      SectionFound(src, dst, last, cur, recs, meant, stream, pos, starts, k);
    }
    EndFound(dst, CurAt(cur, meant, |recs|), stream, starts[|recs|]);
    AgreeAt(src, dst, last, cur, recs, meant, |recs|);
    LoadsFound(reader, |stream|, cur, meant, starts, end, 0, mem, carry);
  }

  // ---- The setup section ----

  /** The bytes of the blocks from place k on. */
  function Left(src: Blocks, k: nat): nat
    requires k <= |src|
    decreases |src| - k
  {
    if k == |src| then 0 else src[k].length + Left(src, k + 1)
  }

  function EntryLength(b: RamBlock): nat { 1 + |b.id| + 8 }

  /** Where entry k of the block list begins, from the start of the list. */
  function EntryPos(src: Blocks, k: nat): nat
    requires k <= |src|
  {
    if k == 0 then 0 else EntryPos(src, k - 1) + EntryLength(src[k - 1])
  }

  ghost predicate EntryAt(stream: Bytes, pos: nat, b: RamBlock)
    requires |b.id| < 256
  {
    Piece(stream, pos, IdBytes(b.id)) && Piece(stream, pos + 1 + |b.id|, Put(b.length, 8))
  }

  ghost predicate NthEntryAt(stream: Bytes, pos: nat, src: Blocks, k: nat)
    requires k < |src| && |src[k].id| < 256
  {
    EntryAt(stream, pos + EntryPos(src, k), src[k])
  }

  ghost predicate ListAt(stream: Bytes, pos: nat, src: Blocks)
    requires BlocksOk(src)
  {
    forall k :: 0 <= k < |src| ==> NthEntryAt(stream, pos, src, k)
  }

  /** `ram_save_setup`: the size of all RAM, the block list, the end mark. */
  ghost predicate SetupAt(stream: Bytes, pos: nat, src: Blocks)
    requires BlocksOk(src)
  {
    && Piece(stream, pos, Put(Header(Left(src, 0), false, MEM_SIZE), 8))
    && ListAt(stream, pos + 8, src)
    && Piece(stream, pos + 8 + EntryPos(src, |src|), Put(EOS, 8))
  }

  function SetupLength(src: Blocks): nat { 8 + EntryPos(src, |src|) + 8 }

  /** The loader has a block of the same name and length. */
  ghost predicate HasTwin(dst: Blocks, b: RamBlock) {
    exists j :: 0 <= j < |dst| && dst[j] == b
  }

  /** The loader has the blocks from place k on. */
  ghost predicate HaveTwins(dst: Blocks, src: Blocks, k: nat) {
    forall i :: k <= i < |src| ==> HasTwin(dst, src[i])
  }

  lemma TwinLength(dst: Blocks, b: RamBlock)
    requires NamesDiffer(dst) && BlockOk(b)
    ensures var t := FindBlock(dst, b.id, 0); t.Some? && dst[t.value].length == b.length <==> HasTwin(dst, b)
  {
    CStringId(b.id);
    var t := FindBlock(dst, b.id, 0);
    if t.Some? && dst[t.value].length == b.length {
      assert dst[t.value] == b;
    }
  }

  lemma EntryRead(dst: Blocks, b: RamBlock, stream: Bytes, pos: nat)
    requires NamesDiffer(dst) && BlockOk(b) && EntryAt(stream, pos, b)
    ensures EntryReader(dst, stream)(pos) == if HasTwin(dst, b) then Entry(b.length, pos + EntryLength(b)) else NoEntry
  {
    NameRead(dst, b.id, stream, pos);
    WordRead(b.length);
    TwinLength(dst, b);
  }

  /** The reader finds the entries one after the other, up to one the loader lacks. */
  ghost predicate EntryFound(entry: nat -> Entry, src: Blocks, dst: Blocks, pos: nat, k: nat)
    requires k < |src|
  {
    entry(pos + EntryPos(src, k)) ==
      if HasTwin(dst, src[k]) then Entry(src[k].length, pos + EntryPos(src, k + 1)) else NoEntry
  }

  lemma {:induction false} EntriesFit(src: Blocks, k: nat, n: nat)
    requires k <= n <= |src|
    ensures EntryPos(src, k) <= EntryPos(src, n)
    decreases n - k
  {
    if k < n {
      EntriesFit(src, k, n - 1);
    }
  }

  /** The block list is read exactly to its end, or refused because the loader lacks a block of the
      same name and length. */
  lemma {:induction false} ListRead(entry: nat -> Entry, size: nat, src: Blocks, dst: Blocks, pos: nat, k: nat)
    requires BlocksOk(src) && k <= |src| && Left(src, k) < WORD_LIMIT
    requires EntriesAdvance(entry, size) && pos + EntryPos(src, |src|) <= size
    requires forall i :: 0 <= i < |src| ==> EntryFound(entry, src, dst, pos, i)
    ensures pos + EntryPos(src, k) <= size
    ensures ListItem(entry, size, Left(src, k), pos + EntryPos(src, k))
         == if HaveTwins(dst, src, k) then Listed(pos + EntryPos(src, |src|)) else Bad
    decreases |src| - k
  {
    EntriesFit(src, k, |src|);
    if k < |src| {
      assert EntryFound(entry, src, dst, pos, k);
      assert (Left(src, k) - src[k].length) % WORD_LIMIT == Left(src, k + 1);
      ListRead(entry, size, src, dst, pos, k + 1);
      assert HaveTwins(dst, src, k) <==> HasTwin(dst, src[k]) && HaveTwins(dst, src, k + 1);
    }
  }

  lemma FlagBitsAdd(a: nat, b: nat)
    requires FlagBits(a) == 0 && FlagBits(b) == 0
    ensures FlagBits(a + b) == 0
  {
    var x, y := a / PAGE_SIZE, b / PAGE_SIZE;
    assert a == x * PAGE_SIZE && b == y * PAGE_SIZE;
    MulDistributes(x, y, PAGE_SIZE);
    DivOfMultiple(x + y, PAGE_SIZE, 0);
  }

  lemma {:induction false} LeftWhole(src: Blocks, k: nat)
    requires k <= |src| && forall i :: 0 <= i < |src| ==> FlagBits(src[i].length) == 0
    ensures FlagBits(Left(src, k)) == 0
    decreases |src| - k
  {
    if k < |src| {
      LeftWhole(src, k + 1);
      FlagBitsAdd(src[k].length, Left(src, k + 1));
    }
  }

  /** The source's blocks: whole pages, that 64 bits can count. */
  ghost predicate SourceOk(src: Blocks) {
    && BlocksOk(src) && Left(src, 0) + PAGE_SIZE <= WORD_LIMIT
    && forall i :: 0 <= i < |src| ==> FlagBits(src[i].length) == 0
  }

  lemma SizeRead(src: Blocks, dst: Blocks, cur: Option<nat>, stream: Bytes, pos: nat)
    requires SourceOk(src) && Piece(stream, pos, Put(Header(Left(src, 0), false, MEM_SIZE), 8))
    ensures LoadItem(dst, cur, stream, pos) == ListItem(EntryReader(dst, stream), |stream|, Left(src, 0), pos + 8)
  {
    LeftWhole(src, 0);
    HeaderRead(dst, cur, Left(src, 0), false, MEM_SIZE, stream, pos);
  }

  lemma NthEntryFound(src: Blocks, dst: Blocks, stream: Bytes, pos: nat, k: nat)
    requires k < |src| && BlockOk(src[k]) && NamesDiffer(dst) && NthEntryAt(stream, pos, src, k)
    ensures EntryFound(EntryReader(dst, stream), src, dst, pos, k)
  {
    EntryRead(dst, src[k], stream, pos + EntryPos(src, k));
  }

  lemma EntriesFound(src: Blocks, dst: Blocks, stream: Bytes, pos: nat)
    requires BlocksOk(src) && NamesDiffer(dst) && ListAt(stream, pos, src)
    ensures forall k :: 0 <= k < |src| ==> EntryFound(EntryReader(dst, stream), src, dst, pos, k)
  {
    forall k | 0 <= k < |src| ensures EntryFound(EntryReader(dst, stream), src, dst, pos, k) {
      assert NthEntryAt(stream, pos, src, k);
      NthEntryFound(src, dst, stream, pos, k);
    }
  }

  lemma ListFound(src: Blocks, dst: Blocks, cur: Option<nat>, stream: Bytes, pos: nat)
    requires SourceOk(src) && NamesDiffer(dst) && SetupAt(stream, pos, src)
    ensures Reader(dst, stream)(cur, pos) == if HaveTwins(dst, src, 0) then Listed(pos + SetupLength(src) - 8) else Bad
  {
    SizeRead(src, dst, cur, stream, pos);
    EntriesFound(src, dst, stream, pos + 8);
    ListRead(EntryReader(dst, stream), |stream|, src, dst, pos + 8, 0);
  }

  /** The setup section is read exactly to its end if the loader has all the blocks, and refused
      otherwise. */
  lemma SetupLoads<M>(src: Blocks, dst: Blocks, cur: Option<nat>, stream: Bytes, pos: nat, mem: M, carry: Carry<M>)
    requires SourceOk(src) && NamesDiffer(dst) && SetupAt(stream, pos, src)
    ensures Load(Reader(dst, stream), |stream|, cur, pos, mem, carry) ==
      if HaveTwins(dst, src, 0) then Outcome(true, mem, cur, pos + SetupLength(src)) else Outcome(false, mem, cur, pos)
  {
    ListFound(src, dst, cur, stream, pos);
    EndFound(dst, cur, stream, pos + SetupLength(src) - 8);
  }

  // ---- Whole streams ----

  /** n calls of `ram_load`, up to the first that fails. */
  function Calls<M>(item: ItemReader, size: nat, cur: Option<nat>, pos: nat, mem: M, n: nat,
                    carry: Carry<M>): Outcome<M>
    requires Advances(item, size)
    decreases n
  {
    if n == 0 then Outcome(true, mem, cur, pos) else
      var o := Load(item, size, cur, pos, mem, carry);
      if o.ok then Calls(item, size, o.cur, o.next, o.mem, n - 1, carry) else o
  }

  /** All rounds from round k on, carried out in order. */
  function CarryRounds<M>(carry: Carry<M>, mem: M, rounds: seq<Records>, k: nat): Option<M>
    requires k <= |rounds|
    decreases |rounds| - k
  {
    if k == |rounds| then Some(mem) else
      match CarryAll(carry, mem, rounds[k], 0)
      case None => None
      case Some(mem') => CarryRounds(carry, mem', rounds, k + 1)
  }

  /** Round k, begun at its place with its block remembered, is carried out. */
  ghost predicate RoundLoads<M>(item: ItemReader, size: nat, curs: seq<Option<nat>>, starts: seq<nat>,
                                rounds: seq<Records>, k: nat, mem: M, carry: Carry<M>)
    requires Advances(item, size) && k < |rounds| && |curs| == |starts| == |rounds| + 1
  {
    Carried(Load(item, size, curs[k], starts[k], mem, carry), CarryAll(carry, mem, rounds[k], 0),
      curs[k + 1], starts[k + 1])
  }

  lemma {:induction false} CallsLoad<M(!new)>(item: ItemReader, size: nat, curs: seq<Option<nat>>, starts: seq<nat>,
                                              rounds: seq<Records>, k: nat, mem: M, carry: Carry<M>)
    requires Advances(item, size) && k <= |rounds| && |curs| == |starts| == |rounds| + 1
    requires forall j, m :: 0 <= j < |rounds| ==> RoundLoads(item, size, curs, starts, rounds, j, m, carry)
    ensures Carried(Calls(item, size, curs[k], starts[k], mem, |rounds| - k, carry),
                    CarryRounds(carry, mem, rounds, k), curs[|rounds|], starts[|rounds|])
    decreases |rounds| - k
  {
    if k < |rounds| {
      assert RoundLoads(item, size, curs, starts, rounds, k, mem, carry);
      var next := CarryAll(carry, mem, rounds[k], 0);
      if next.Some? {
        CallsLoad(item, size, curs, starts, rounds, k + 1, next.value, carry);
      }
    }
  }

  lemma CallsLoadAll<M(!new)>(item: ItemReader, size: nat, curs: seq<Option<nat>>, starts: seq<nat>,
                              rounds: seq<Records>, mem: M, carry: Carry<M>,
                              cur: Option<nat>, start: nat, cur': Option<nat>, end: nat)
    requires Advances(item, size) && |curs| == |starts| == |rounds| + 1
    requires curs[0] == cur && starts[0] == start && curs[|rounds|] == cur' && starts[|rounds|] == end
    requires forall j, m :: 0 <= j < |rounds| ==> RoundLoads(item, size, curs, starts, rounds, j, m, carry)
    ensures Carried(Calls(item, size, cur, start, mem, |rounds|, carry), CarryRounds(carry, mem, rounds, 0), cur', end)
  {
    CallsLoad(item, size, curs, starts, rounds, 0, mem, carry);
  }

  ghost predicate RoundsOk(src: Blocks, rounds: seq<Records>) {
    forall k :: 0 <= k < |rounds| ==> RecordsOk(src, rounds[k])
  }

  /** `last_sent_block` before round k. */
  function LastAt(rounds: seq<Records>, k: nat): Option<nat>
    requires k <= |rounds|
  {
    if k == 0 then None else Before(LastAt(rounds, k - 1), rounds[k - 1], |rounds[k - 1]|)
  }

  /** Where round k begins, after the setup section. */
  ghost function RoundPos(src: Blocks, rounds: seq<Records>, k: nat): nat
    requires k <= |rounds| && RoundsOk(src, rounds)
  {
    if k == 0 then SetupLength(src) else
      RoundPos(src, rounds, k - 1) + SectionLength(src, LastAt(rounds, k - 1), rounds[k - 1])
  }

  ghost predicate NthRoundAt(stream: Bytes, src: Blocks, rounds: seq<Records>, k: nat)
    requires NamesOk(src) && RoundsOk(src, rounds) && k < |rounds|
  {
    SectionAt(stream, RoundPos(src, rounds, k), src, LastAt(rounds, k), rounds[k])
  }

  /** The stream of a whole migration. */
  ghost predicate StreamAt(stream: Bytes, src: Blocks, rounds: seq<Records>)
    requires BlocksOk(src) && RoundsOk(src, rounds)
  {
    SetupAt(stream, 0, src) && forall k :: 0 <= k < |rounds| ==> NthRoundAt(stream, src, rounds, k)
  }

  ghost predicate AllMeant(src: Blocks, dst: Blocks, rounds: seq<Records>, meant: seq<Records>)
    requires RoundsOk(src, rounds)
  {
    |meant| == |rounds| && forall k :: 0 <= k < |rounds| ==> Meant(src, dst, rounds[k], meant[k])
  }

  /** The block the loader remembers before round k, having remembered `cur` after setup. */
  function CurBefore(cur: Option<nat>, meant: seq<Records>, k: nat): Option<nat>
    requires k <= |meant|
  {
    if k == 0 then cur else CurAt(CurBefore(cur, meant, k - 1), meant[k - 1], |meant[k - 1]|)
  }

  /** Over the whole run, what the loader remembers agrees with what the saver sent last. */
  lemma {:induction false} AgreeBefore(src: Blocks, dst: Blocks, cur: Option<nat>,
                                       rounds: seq<Records>, meant: seq<Records>, k: nat)
    requires RoundsOk(src, rounds) && AllMeant(src, dst, rounds, meant) && k <= |rounds|
    ensures Agree(src, dst, LastAt(rounds, k), CurBefore(cur, meant, k))
  {
    if k > 0 {
      AgreeBefore(src, dst, cur, rounds, meant, k - 1);
      AgreeAt(src, dst, LastAt(rounds, k - 1), CurBefore(cur, meant, k - 1),
        rounds[k - 1], meant[k - 1], |rounds[k - 1]|);
    }
  }

  /** The block remembered and the place in the stream before round k. */
  ghost predicate Stands(src: Blocks, cur: Option<nat>, rounds: seq<Records>, meant: seq<Records>,
                         curs: seq<Option<nat>>, starts: seq<nat>, k: nat)
    requires k <= |rounds| == |meant| && |curs| == |starts| == |rounds| + 1 && RoundsOk(src, rounds)
  {
    curs[k] == CurBefore(cur, meant, k) && starts[k] == RoundPos(src, rounds, k)
  }

  lemma NthRoundLoads<M>(src: Blocks, dst: Blocks, cur: Option<nat>, rounds: seq<Records>, meant: seq<Records>,
                         stream: Bytes, curs: seq<Option<nat>>, starts: seq<nat>, k: nat, mem: M, carry: Carry<M>)
    requires NamesOk(src) && RoundsOk(src, rounds) && AllMeant(src, dst, rounds, meant)
    requires k < |rounds| && |curs| == |starts| == |rounds| + 1 && NthRoundAt(stream, src, rounds, k)
    requires Stands(src, cur, rounds, meant, curs, starts, k) && Stands(src, cur, rounds, meant, curs, starts, k + 1)
    ensures RoundLoads(Reader(dst, stream), |stream|, curs, starts, meant, k, mem, carry)
  {
    AgreeBefore(src, dst, cur, rounds, meant, k);
    SectionLoads(src, dst, LastAt(rounds, k), curs[k], rounds[k], meant[k], stream, starts[k], mem, carry);
  }

  lemma AllRoundsLoad<M(!new)>(src: Blocks, dst: Blocks, cur: Option<nat>, rounds: seq<Records>,
                               meant: seq<Records>, stream: Bytes, curs: seq<Option<nat>>, starts: seq<nat>,
                               carry: Carry<M>)
    requires NamesOk(src) && RoundsOk(src, rounds) && AllMeant(src, dst, rounds, meant)
    requires |curs| == |starts| == |rounds| + 1 && forall k :: 0 <= k < |rounds| ==> NthRoundAt(stream, src, rounds, k)
    requires forall k :: 0 <= k <= |rounds| ==> Stands(src, cur, rounds, meant, curs, starts, k)
    ensures forall k, mem :: 0 <= k < |rounds| ==>
      RoundLoads(Reader(dst, stream), |stream|, curs, starts, meant, k, mem, carry)
  {
    forall k, mem | 0 <= k < |rounds|
      ensures RoundLoads(Reader(dst, stream), |stream|, curs, starts, meant, k, mem, carry)
    {
      assert NthRoundAt(stream, src, rounds, k);
      var next := k + 1;
      assert Stands(src, cur, rounds, meant, curs, starts, k) && Stands(src, cur, rounds, meant, curs, starts, next);
      NthRoundLoads(src, dst, cur, rounds, meant, stream, curs, starts, k, mem, carry);
    }
  }

  lemma {:induction false} Standing(src: Blocks, cur: Option<nat>, rounds: seq<Records>, meant: seq<Records>)
    returns (curs: seq<Option<nat>>, starts: seq<nat>)
    requires |rounds| == |meant| && RoundsOk(src, rounds)
    ensures |curs| == |starts| == |rounds| + 1
    ensures forall k :: 0 <= k <= |rounds| ==> Stands(src, cur, rounds, meant, curs, starts, k)
  {
    var n := |rounds|;
    curs := seq(n + 1, k requires 0 <= k <= n => CurBefore(cur, meant, k));
    starts := seq(n + 1, k requires 0 <= k <= n => RoundPos(src, rounds, k));
  }

  /** A loader that has the saver's blocks has a place for every record. */
  lemma {:induction false} MeantExists(src: Blocks, dst: Blocks, recs: Records) returns (meant: Records)
    requires BlocksOk(src) && NamesDiffer(dst) && HaveTwins(dst, src, 0) && RecordsOk(src, recs)
    ensures Meant(src, dst, recs, meant)
  {
    meant := [];
    for k := 0 to |recs|
      invariant |meant| == k && forall j :: 0 <= j < k ==> MeantFor(src, dst, recs[j], meant[j])
    {
      assert HasTwin(dst, src[recs[k].block]);
      TwinLength(dst, src[recs[k].block]);
      meant := meant + [Record(Twin(src, dst, recs[k].block).value, recs[k].offset, recs[k].body)];
    }
  }

  lemma {:induction false} AllMeantExists(src: Blocks, dst: Blocks, rounds: seq<Records>)
    returns (meant: seq<Records>)
    requires BlocksOk(src) && NamesDiffer(dst) && HaveTwins(dst, src, 0) && RoundsOk(src, rounds)
    ensures AllMeant(src, dst, rounds, meant)
  {
    meant := [];
    for k := 0 to |rounds|
      invariant |meant| == k && forall j :: 0 <= j < k ==> Meant(src, dst, rounds[j], meant[j])
    {
      var m := MeantExists(src, dst, rounds[k]);
      meant := meant + [m];
    }
  }

  /** The rounds of a stream: the calls of `ram_load` carry out exactly the records sent, each where
      it was meant, and end where the stream does; they fail exactly if a record does. */
  lemma RoundsLoad<M(!new)>(src: Blocks, dst: Blocks, cur: Option<nat>, rounds: seq<Records>,
                            meant: seq<Records>, stream: Bytes, mem: M, carry: Carry<M>)
    requires BlocksOk(src) && RoundsOk(src, rounds) && AllMeant(src, dst, rounds, meant)
    requires StreamAt(stream, src, rounds)
    ensures Carried(Calls(Reader(dst, stream), |stream|, cur, SetupLength(src), mem, |rounds|, carry),
                    CarryRounds(carry, mem, meant, 0), CurBefore(cur, meant, |rounds|), RoundPos(src, rounds, |rounds|))
  {
    var curs, starts := Standing(src, cur, rounds, meant);
    AllRoundsLoad(src, dst, cur, rounds, meant, stream, curs, starts, carry);
    var n := |rounds|;
    assert Stands(src, cur, rounds, meant, curs, starts, 0) && Stands(src, cur, rounds, meant, curs, starts, n);
    CallsLoadAll(Reader(dst, stream), |stream|, curs, starts, meant, mem, carry,
                 cur, SetupLength(src), CurBefore(cur, meant, n), RoundPos(src, rounds, n));
  }

  /** The first call reads the setup section; the others read the rounds. */
  lemma SetupThenRounds<M>(item: ItemReader, size: nat, cur: Option<nat>, n: nat, mem: M, carry: Carry<M>, next: nat)
    requires Advances(item, size) && Load(item, size, cur, 0, mem, carry) == Outcome(true, mem, cur, next)
    ensures Calls(item, size, cur, 0, mem, 1 + n, carry) == Calls(item, size, cur, next, mem, n, carry)
  {
  }

  /** The whole stream, read by a loader that remembers anything at first and has the saver's blocks, in
      whatever order: it carries out exactly the records sent, each in its own block of the same name,
      and fails exactly if one of them does. */
  lemma StreamLoads<M(!new)>(src: Blocks, dst: Blocks, cur: Option<nat>, rounds: seq<Records>,
                             stream: Bytes, mem: M, carry: Carry<M>)
    returns (meant: seq<Records>)
    requires SourceOk(src) && NamesDiffer(dst) && RoundsOk(src, rounds) && StreamAt(stream, src, rounds)
    requires HaveTwins(dst, src, 0)
    ensures AllMeant(src, dst, rounds, meant)
    ensures Carried(Calls(Reader(dst, stream), |stream|, cur, 0, mem, 1 + |rounds|, carry),
                    CarryRounds(carry, mem, meant, 0), CurBefore(cur, meant, |rounds|), RoundPos(src, rounds, |rounds|))
  {
    meant := AllMeantExists(src, dst, rounds);
    SetupLoads(src, dst, cur, stream, 0, mem, carry);
    SetupThenRounds(Reader(dst, stream), |stream|, cur, |rounds|, mem, carry, SetupLength(src));
    RoundsLoad(src, dst, cur, rounds, meant, stream, mem, carry);
  }

  /** A loader that lacks one of the saver's blocks refuses the stream and carries out nothing. */
  lemma StreamRefused<M>(src: Blocks, dst: Blocks, cur: Option<nat>, rounds: seq<Records>,
                         stream: Bytes, mem: M, carry: Carry<M>)
    requires SourceOk(src) && NamesDiffer(dst) && RoundsOk(src, rounds) && StreamAt(stream, src, rounds)
    requires !HaveTwins(dst, src, 0)
    ensures Calls(Reader(dst, stream), |stream|, cur, 0, mem, 1 + |rounds|, carry) == Outcome(false, mem, cur, 0)
  {
    SetupLoads(src, dst, cur, stream, 0, mem, carry);
  }
}
