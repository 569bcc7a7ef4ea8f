/** Concurrent reads and writes of any offset and length through a device that only does whole blocks.

    Each write runs the read-modify-write cycle of `Rmw` under the waiting protocol of `Serialise`, and
    requests may take turns at every wait and at every read or write of the device. The disk grows with
    writes past its end, or has a fixed size, which need not be a whole number of blocks. */
module SerialWrites {
  import opened Values
  import opened Serialise
  import opened Rmw

  type BlockSize = n: nat | 0 < n witness 512
  const ALIGN: BlockSize

  /** Whether the disk grows, and what the device returns past the end of one that does not. */
  const GROWS: bool
  const BEYOND: nat -> Byte

  /** Byte i as reads show it; past the end of a growing disk they show zeros. */
  function Shows(disk: seq<Byte>, i: nat): Byte {
    if i < |disk| then disk[i] else if GROWS then 0 else BEYOND(i)
  }

  function Showing(disk: seq<Byte>): (show: nat -> Byte)
    ensures forall i: nat :: show(i) == Shows(disk, i)
  {
    (i: nat) => Shows(disk, i)
  }

  /** Some bytes as reads show them. */
  function Shown(disk: seq<Byte>, at: nat, n: nat): (r: seq<Byte>)
    ensures |r| == n && forall i :: 0 <= i < n ==> r[i] == Shows(disk, at + i)
  {
    seq<Byte>(n, i requires 0 <= i => Shows(disk, at + i))
  }

  /** A write on its way: its bytes, the blocks read to pad it, and whether it is over. */
  datatype Cycle = Cycle(offset: nat, data: seq<Byte>, head: Option<seq<Byte>>, tail: Option<seq<Byte>>, done: bool) {
    function Stop(): nat { offset + |data| }
    function Lo(): nat { AlignDown(offset, ALIGN) }
    function Hi(): nat { AlignUp(Stop(), ALIGN) }
    /** Start of the last block. */
    function Last(): nat { AlignDown(Stop(), ALIGN) }
    predicate NeedsHead() { offset % ALIGN != 0 }
    predicate NeedsTail() { Stop() % ALIGN != 0 }
    predicate Padded() { NeedsHead() || NeedsTail() }
    predicate Read() { (NeedsHead() ==> head.Some?) && (NeedsTail() ==> tail.Some?) }

    /** The rest of the first block, before the data. */
    function Front(): seq<Byte>
      requires NeedsHead() ==> head.Some? && |head.value| == ALIGN
    {
      if NeedsHead() then head.value[..offset % ALIGN] else []
    }

    /** The rest of the last block, after the data. */
    function Back(): seq<Byte>
      requires NeedsTail() ==> tail.Some? && |tail.value| == ALIGN
    {
      if NeedsTail() then tail.value[Stop() % ALIGN..] else []
    }

    /** What goes to the device. */
    function Buffer(): seq<Byte>
      requires Read() && (head.Some? ==> |head.value| == ALIGN) && (tail.Some? ==> |tail.value| == ALIGN)
    {
      Front() + data + Back()
    }
  }

  /** A write that was carried out, or that failed and left some bytes of its blocks. */
  datatype Entry = Whole(id: nat) | Torn(id: nat, left: seq<Byte>)

  /** An answered read: its request, what it returned, and how many writes had been carried out. */
  datatype Seen = Seen(id: nat, offset: nat, got: seq<Byte>, after: nat)

  type Writes = map<nat, (nat, seq<Byte>)>

  /** The device's requests, the disk, the write or the read of each request, every write ever begun by its
      request's number, those carried out, in that order, and the answers to reads. */
  datatype World = World(
    dev: Device, disk: seq<Byte>, io: map<nat, Cycle>, asks: map<nat, (nat, nat)>,
    begun: Writes, log: seq<Entry>, seen: seq<Seen>)

  datatype Move =
    | Start(offset: nat, data: seq<Byte>)
    | StartRead(offset: nat, bytes: nat)
    | Wake(id: nat)
    | ReadHead(id: nat)
    | ReadTail(id: nat)
    | WriteBack(id: nat)
    | Tear(id: nat, left: seq<Byte>)
    | ReadDisk(id: nat)
    | Leave(id: nat)

  function Begun(disk: seq<Byte>): World {
    World(INITIAL, disk, map[], map[], map[], [], [])
  }

  function Fresh(offset: nat, data: seq<Byte>): Cycle {
    Cycle(offset, data, None, None, false)
  }

  function Arrival(c: Cycle): Step {
    Arrive(c.offset, |c.data|, true, if c.Padded() then Some(ALIGN) else None)
  }

  /** A read is tracked with whole blocks and never serialising. */
  function ReadArrival(offset: nat, bytes: nat): Step {
    var lo := AlignDown(offset, ALIGN);
    Arrive(lo, AlignUp(offset + bytes, ALIGN) - lo, false, None)
  }

  /** The request has passed its wait and is a write that is not over. */
  predicate Busy(w: World, id: nat) {
    id in w.dev.passed && id in w.dev.requests && id in w.io && !w.io[id].done
  }

  /** When a move can happen. Requests start if they lie on the disk, or it grows; a request may leave without
      having written, as after a failed read. */
  predicate Can(w: World, move: Move) {
    match move
    case Start(offset, data) => GROWS || offset + |data| <= |w.disk|
    case StartRead(offset, bytes) => GROWS || offset + bytes <= |w.disk|
    case Wake(id) => Enabled(w.dev, Resume(id))
    case ReadHead(id) => Busy(w, id) && w.io[id].NeedsHead() && w.io[id].head.None?
    case ReadTail(id) =>
      Busy(w, id) && w.io[id].NeedsTail() && w.io[id].tail.None? && (w.io[id].NeedsHead() ==> w.io[id].head.Some?)
    case WriteBack(id) => Busy(w, id) && w.io[id].Read()
    case Tear(id, left) => Busy(w, id) && w.io[id].Read() && w.io[id].Lo() + |left| <= w.io[id].Hi()
    case ReadDisk(id) => id in w.dev.passed && id in w.asks
    case Leave(id) => Enabled(w.dev, Finish(id))
  }

  // ---- What a write does alone ----

  /** The disk after the write of the data, padded with what the disk shows. */
  function Alone(disk: seq<Byte>, offset: nat, data: seq<Byte>): seq<Byte> {
    var lo, hi := AlignDown(offset, ALIGN), AlignUp(offset + |data|, ALIGN);
    Stored(GROWS, disk, lo, PaddedWith(Showing(disk), offset, data, lo, hi))
  }

  /** Reads outside the range of a write show what they showed. */
  lemma ShowsOutside(disk: seq<Byte>, lo: nat, data: seq<Byte>, i: nat)
    requires !(lo <= i < lo + |data|)
    ensures Shows(Stored(GROWS, disk, lo, data), i) == Shows(disk, i)
  {
  }

  lemma AloneAt(disk: seq<Byte>, offset: nat, data: seq<Byte>, i: nat)
    ensures var after := Alone(disk, offset, data);
      && (offset <= i < offset + |data| && i < |after| ==> after[i] == data[i - offset])
      && (!(offset <= i < offset + |data|) ==> Shows(after, i) == Shows(disk, i))
  {
    var lo, hi := AlignDown(offset, ALIGN), AlignUp(offset + |data|, ALIGN);
    var buf := PaddedWith(Showing(disk), offset, data, lo, hi);
    if lo <= i < hi {
      assert buf[i - lo] == if offset <= i < offset + |data| then data[i - offset] else Shows(disk, i);
    } else {
      ShowsOutside(disk, lo, buf, i);
    }
  }

  /** That write alone changes exactly its bytes. */
  lemma AloneExact(disk: seq<Byte>, offset: nat, data: seq<Byte>)
    requires GROWS || offset + |data| <= |disk|
    ensures Exact(disk, Alone(disk, offset, data), offset, data)
    ensures forall i: nat :: !(offset <= i < offset + |data|) ==> Shows(Alone(disk, offset, data), i) == Shows(disk, i)
  {
    var after := Alone(disk, offset, data);
    forall i: nat
      ensures offset <= i < offset + |data| && i < |after| ==> after[i] == data[i - offset]
      ensures !(offset <= i < offset + |data|) ==> Shows(after, i) == Shows(disk, i)
    {
      AloneAt(disk, offset, data, i);
    }
    forall i | 0 <= i < |disk| && !(offset <= i < offset + |data|) ensures after[i] == disk[i] {
      assert Shows(after, i) == Shows(disk, i);
    }
  }

  function Effect(disk: seq<Byte>, begun: Writes, e: Entry): seq<Byte>
    requires e.id in begun
  {
    var x := begun[e.id];
    if e.Whole? then Alone(disk, x.0, x.1) else Stored(GROWS, disk, AlignDown(x.0, ALIGN), e.left)
  }

  ghost predicate Recorded(begun: Writes, log: seq<Entry>) {
    forall k :: 0 <= k < |log| ==> log[k].id in begun
  }

  /** The entries of the log carried out one after the other. */
  function Serially(disk: seq<Byte>, begun: Writes, log: seq<Entry>): seq<Byte>
    requires Recorded(begun, log)
  {
    if log == [] then disk else
      Effect(Serially(disk, begun, log[..|log| - 1]), begun, log[|log| - 1])
  }

  // ---- The moves ----

  /** What the request has read is what the disk shows. */
  ghost predicate Current(c: Cycle, disk: seq<Byte>) {
    && (c.head.Some? ==> c.NeedsHead() && c.head.value == Shown(disk, c.Lo(), ALIGN))
    && (c.tail.Some? ==> c.NeedsTail() && c.tail.value == Shown(disk, c.Last(), ALIGN))
  }

  function WithStart(w: World, c: Cycle): World
    requires Listed(w.dev) && w.dev.next !in w.dev.requests
  {
    w.(dev := Apply(w.dev, Arrival(c)), io := w.io[w.dev.next := c], begun := w.begun[w.dev.next := (c.offset, c.data)])
  }

  function PaddedDisk(w: World, id: nat): seq<Byte>
    requires id in w.io && w.io[id].Read() && Current(w.io[id], w.disk)
  {
    Stored(GROWS, w.disk, w.io[id].Lo(), w.io[id].Buffer())
  }

  function WithEntry(w: World, e: Entry, disk: seq<Byte>): World
    requires e.id in w.io
  {
    w.(disk := disk, io := w.io[e.id := w.io[e.id].(done := true)], log := w.log + [e])
  }

  /** Requests are tracked, and what each one on its way has read is current. */
  ghost predicate Ready(w: World) {
    Listed(w.dev) && w.dev.next !in w.dev.requests && forall id :: Busy(w, id) ==> Current(w.io[id], w.disk)
  }

  function Do(w: World, move: Move): World
    requires Ready(w) && Can(w, move)
  {
    match move
    case Start(offset, data) => WithStart(w, Fresh(offset, data))
    case StartRead(offset, bytes) =>
      w.(dev := Apply(w.dev, ReadArrival(offset, bytes)), asks := w.asks[w.dev.next := (offset, bytes)])
    case Wake(id) => w.(dev := Apply(w.dev, Resume(id)))
    case ReadHead(id) => w.(io := w.io[id := w.io[id].(head := Some(Shown(w.disk, w.io[id].Lo(), ALIGN)))])
    case ReadTail(id) => w.(io := w.io[id := w.io[id].(tail := Some(Shown(w.disk, w.io[id].Last(), ALIGN)))])
    case WriteBack(id) => WithEntry(w, Whole(id), PaddedDisk(w, id))
    case Tear(id, left) => WithEntry(w, Torn(id, left), Stored(GROWS, w.disk, w.io[id].Lo(), left))
    case ReadDisk(id) =>
      var (offset, bytes) := w.asks[id];
      w.(seen := w.seen + [Seen(id, offset, Shown(w.disk, offset, bytes), |w.log|)])
    case Leave(id) => w.(dev := Apply(w.dev, Finish(id)), io := w.io - {id}, asks := w.asks - {id})
  }

  // ---- The invariant ----

  /** The tracked request of a write has exactly its blocks, and is serialising if it is padded. */
  ghost predicate Tracks(r: Request, c: Cycle) {
    && r.isWrite && (r.serialising <==> c.Padded())
    && r.overlapOffset == c.Lo() && r.overlapOffset + r.overlapBytes == c.Hi()
  }

  ghost predicate InLog(log: seq<Entry>, id: nat) {
    exists k :: 0 <= k < |log| && log[k].id == id
  }

  ghost predicate CycleOk(w: World, id: nat)
    requires id in w.io && id in w.dev.requests
  {
    var c := w.io[id];
    && Tracks(w.dev.requests[id], c) && id in w.begun && w.begun[id] == (c.offset, c.data)
    && (c.done <==> InLog(w.log, id)) && (!c.done ==> Current(c, w.disk))
    && (c.head.Some? || c.tail.Some? ==> id in w.dev.passed)
  }

  /** No write is in the log twice. */
  ghost predicate Once(log: seq<Entry>) {
    forall j, k :: 0 <= j < k < |log| ==> log[j].id != log[k].id
  }

  ghost predicate LogOk(w: World) {
    Recorded(w.begun, w.log) && Once(w.log) && forall id :: id in w.begun ==> id < w.dev.next
  }

  /** Each request is a write or a read. */
  ghost predicate Known(w: World) {
    w.dev.requests.Keys == w.io.Keys + w.asks.Keys && w.io.Keys !! w.asks.Keys
  }

  /** The answer to a read is what the disk holds after the writes that it counts, zeros past its end. */
  ghost predicate SeenOk(r: Seen, disk: seq<Byte>, begun: Writes, log: seq<Entry>)
    requires Recorded(begun, log)
  {
    && r.after <= |log|
    && var d := Serially(disk, begun, log[..r.after]);
      forall i :: 0 <= i < |r.got| ==> r.got[i] == if r.offset + i < |d| then d[r.offset + i] else 0
  }

  /** All answers are, and later ones count no fewer writes. */
  ghost predicate ReadsOk(w: World, disk: seq<Byte>)
    requires Recorded(w.begun, w.log)
  {
    && (forall k :: 0 <= k < |w.seen| ==> SeenOk(w.seen[k], disk, w.begun, w.log))
    && (forall j, k :: 0 <= j < k < |w.seen| ==> w.seen[j].after <= w.seen[k].after)
  }

  ghost predicate CyclesOk(w: World) {
    Known(w) && forall id :: id in w.io ==> CycleOk(w, id)
  }

  /** What holds of the reads and writes, whatever the state of the tracked requests. */
  ghost predicate Ledger(w: World, disk: seq<Byte>) {
    LogOk(w) && CyclesOk(w) && w.disk == Serially(disk, w.begun, w.log) && ReadsOk(w, disk)
  }

  /** The tracked request of a read has the blocks of the read, which lies on a disk that does not grow. */
  ghost predicate AskOk(r: Request, offset: nat, bytes: nat, length: nat) {
    && r.overlapOffset == AlignDown(offset, ALIGN)
    && r.overlapOffset + r.overlapBytes == AlignUp(offset + bytes, ALIGN)
    && !r.isWrite && !r.serialising && (GROWS || offset + bytes <= length)
  }

  ghost predicate AsksOk(w: World) {
    forall id :: id in w.asks ==>
      id in w.dev.requests && AskOk(w.dev.requests[id], w.asks[id].0, w.asks[id].1, |w.disk|)
  }

  ghost predicate WorldInv(w: World, disk: seq<Byte>) {
    Inv(w.dev) && Ledger(w, disk) && AsksOk(w)
  }

  // ---- One write ----

  lemma Geometry(c: Cycle)
    ensures c.Lo() <= c.offset <= c.Stop() <= c.Hi() && c.Lo() <= c.Last()
    ensures c.offset - c.Lo() == c.offset % ALIGN && c.Stop() - c.Last() == c.Stop() % ALIGN
    ensures c.NeedsHead() ==> c.Lo() + ALIGN <= c.Hi()
    ensures c.Hi() == if c.NeedsTail() then c.Last() + ALIGN else c.Stop()
  {
    AlignFacts(c.offset, ALIGN);
    AlignFacts(c.Stop(), ALIGN);
    if c.NeedsHead() && c.Hi() < c.Lo() + ALIGN {
      MultiplesApart(c.Hi(), c.Lo(), ALIGN);
    }
    MultiplesApart(c.Lo(), c.Last(), ALIGN);
  }

  lemma FrontIs(c: Cycle, disk: seq<Byte>)
    requires Current(c, disk) && c.Read()
    ensures c.Lo() <= c.offset && c.Front() == Shown(disk, c.Lo(), c.offset - c.Lo())
  {
    Geometry(c);
  }

  lemma BackIs(c: Cycle, disk: seq<Byte>)
    requires Current(c, disk) && c.Read()
    ensures c.Stop() <= c.Hi() && c.Back() == Shown(disk, c.Stop(), c.Hi() - c.Stop())
  {
    Geometry(c);
  }

  lemma Joined(disk: seq<Byte>, offset: nat, data: seq<Byte>, lo: nat, hi: nat)
    requires lo <= offset && offset + |data| <= hi
    ensures Shown(disk, lo, offset - lo) + data + Shown(disk, offset + |data|, hi - (offset + |data|)) ==
            PaddedWith(Showing(disk), offset, data, lo, hi)
  {
  }

  /** Writing the padded blocks is the write of the data alone. */
  lemma BufferExact(c: Cycle, disk: seq<Byte>)
    requires Current(c, disk) && c.Read()
    ensures Stored(GROWS, disk, c.Lo(), c.Buffer()) == Alone(disk, c.offset, c.data)
    ensures c.Lo() + |c.Buffer()| == c.Hi()
  {
    Geometry(c);
    FrontIs(c, disk);
    BackIs(c, disk);
    Joined(disk, c.offset, c.data, c.Lo(), c.Hi());
    assert c.Buffer() == PaddedWith(Showing(disk), c.offset, c.data, c.Lo(), c.Hi());
  }

  /** A write elsewhere leaves what was read as it was. */
  lemma StaysCurrent(c: Cycle, disk: seq<Byte>, lo: nat, data: seq<Byte>)
    requires Current(c, disk)
    requires c.Hi() <= lo || lo + |data| <= c.Lo() || (c.head.None? && c.tail.None?)
    ensures Current(c, Stored(GROWS, disk, lo, data))
  {
    Geometry(c);
    if c.head.Some? {
      ShownStays(disk, lo, data, c.Lo(), ALIGN);
    }
    if c.tail.Some? {
      ShownStays(disk, lo, data, c.Last(), ALIGN);
    }
  }

  lemma ShownStays(disk: seq<Byte>, lo: nat, data: seq<Byte>, at: nat, n: nat)
    requires at + n <= lo || lo + |data| <= at
    ensures Shown(Stored(GROWS, disk, lo, data), at, n) == Shown(disk, at, n)
  {
    var a, b := Shown(Stored(GROWS, disk, lo, data), at, n), Shown(disk, at, n);
    forall i | 0 <= i < n ensures a[i] == b[i] {
      ShowsOutside(disk, lo, data, at + i);
    }
  }

  /** Two requests past their wait, one of them padded, have no block in common. */
  lemma BlocksApart(d: Device, a: nat, b: nat, c: Cycle, other: Cycle)
    requires Safe(d) && a in d.passed && b in d.passed && a != b && a in d.requests && b in d.requests
    requires Tracks(d.requests[a], c) && Tracks(d.requests[b], other) && c.Padded()
    ensures c.Hi() <= other.Lo() || other.Hi() <= c.Lo()
  {
  }

  // ---- The log ----

  lemma {:induction false} SeriallyMore(disk: seq<Byte>, begun: Writes, id: nat, x: (nat, seq<Byte>), log: seq<Entry>)
    requires Recorded(begun, log) && id !in begun
    ensures Serially(disk, begun[id := x], log) == Serially(disk, begun, log)
  {
    if log != [] {
      SeriallyMore(disk, begun, id, x, log[..|log| - 1]);
    }
  }

  lemma SeriallyNext(disk: seq<Byte>, begun: Writes, log: seq<Entry>, e: Entry)
    requires Recorded(begun, log) && e.id in begun
    ensures Serially(disk, begun, log + [e]) == Effect(Serially(disk, begun, log), begun, e)
  {
    assert (log + [e])[..|log|] == log;
  }

  lemma LogNext(log: seq<Entry>, e: Entry)
    requires Once(log) && !InLog(log, e.id)
    ensures Once(log + [e]) && forall id :: InLog(log + [e], id) <==> InLog(log, id) || id == e.id
  {
    forall id ensures InLog(log + [e], id) <==> InLog(log, id) || id == e.id {
      if InLog(log, id) {
        var k :| 0 <= k < |log| && log[k].id == id;
        assert (log + [e])[k].id == id;
      }
      assert (log + [e])[|log|] == e;
    }
  }

  /** Another write begun changes no answer. */
  lemma AnswersBegun(w: World, w': World, disk: seq<Byte>, id: nat, x: (nat, seq<Byte>))
    requires Recorded(w.begun, w.log) && ReadsOk(w, disk) && w'.seen == w.seen
    requires id !in w.begun && w'.begun == w.begun[id := x] && w'.log == w.log
    ensures Recorded(w'.begun, w'.log) && ReadsOk(w', disk)
  {
    forall k | 0 <= k < |w.seen| ensures SeenOk(w.seen[k], disk, w'.begun, w'.log) {
      assert SeenOk(w.seen[k], disk, w.begun, w.log);
      SeriallyMore(disk, w.begun, id, x, w.log[..w.seen[k].after]);
    }
  }

  /** Nor does another one carried out. */
  lemma AnswersLogged(w: World, w': World, disk: seq<Byte>, e: Entry)
    requires Recorded(w.begun, w.log) && ReadsOk(w, disk) && w'.seen == w.seen
    requires w'.begun == w.begun && e.id in w.begun && w'.log == w.log + [e]
    ensures Recorded(w'.begun, w'.log) && ReadsOk(w', disk)
  {
    forall k | 0 <= k < |w.seen| ensures SeenOk(w.seen[k], disk, w'.begun, w'.log) {
      assert SeenOk(w.seen[k], disk, w.begun, w.log);
      assert w'.log[..w.seen[k].after] == w.log[..w.seen[k].after];
    }
  }

  // ---- Every move ----

  /** A write that a move does not touch stays in order. */
  lemma CycleStays(w: World, w': World, id: nat)
    requires id in w.io && id in w.dev.requests && CycleOk(w, id) && id in w'.io && id in w'.dev.requests
    requires w'.io[id] == w.io[id] && id in w'.begun && w'.begun[id] == w.begun[id]
    requires id in w.dev.passed ==> id in w'.dev.passed
    requires w'.dev.requests[id] == w.dev.requests[id].(waitingFor := w'.dev.requests[id].waitingFor)
    requires (InLog(w'.log, id) <==> InLog(w.log, id)) && (!w.io[id].done ==> Current(w.io[id], w'.disk))
    ensures CycleOk(w', id)
  {
  }

  lemma StartedOk(w: World, c: Cycle, id: nat)
    requires id in w.io && id in w.dev.requests && w.io[id] == c == Fresh(c.offset, c.data)
    requires !InLog(w.log, id) && id in w.begun && w.begun[id] == (c.offset, c.data)
    requires w.dev.requests[id] == NewWrite(c).(waitingFor := w.dev.requests[id].waitingFor)
    ensures CycleOk(w, id)
  {
    MarkedRange(c.offset, |c.data|, true, ALIGN);
    Geometry(c);
  }

  lemma NotInLog(w: World)
    requires LogOk(w)
    ensures !InLog(w.log, w.dev.next) && w.dev.next !in w.begun
  {
  }

  function NewWrite(c: Cycle): Request {
    var r := NewRequest(c.offset, |c.data|, true);
    if c.Padded() then Marked(r, ALIGN) else r
  }

  lemma StartCycles(w: World, w': World, c: Cycle)
    requires CyclesOk(w) && LogOk(w) && c == Fresh(c.offset, c.data) && w.dev.next !in w.dev.requests
    requires Arrived(w.dev, w'.dev, NewWrite(c)) && w'.disk == w.disk && w'.log == w.log && w'.asks == w.asks
    requires w'.io == w.io[w.dev.next := c] && w'.begun == w.begun[w.dev.next := (c.offset, c.data)]
    ensures CyclesOk(w')
  {
    var next := w.dev.next;
    NotInLog(w);
    StartedOk(w', c, next);
    forall id | id in w'.io ensures CycleOk(w', id) {
      if id != next {
        CycleStays(w, w', id);
      }
    }
  }

  lemma StartKeeps(w: World, disk: seq<Byte>, c: Cycle)
    requires Ledger(w, disk) && Listed(w.dev) && w.dev.next !in w.dev.requests && c == Fresh(c.offset, c.data)
    ensures Ledger(WithStart(w, c), disk)
  {
    NotInLog(w);
    ArrivalKeeps(w.dev, c.offset, |c.data|, true, if c.Padded() then Some(ALIGN) else None);
    StartCycles(w, WithStart(w, c), c);
    SeriallyMore(disk, w.begun, w.dev.next, (c.offset, c.data), w.log);
    AnswersBegun(w, WithStart(w, c), disk, w.dev.next, (c.offset, c.data));
  }

  /** A move after which the log, the disk and the answers are the same. */
  lemma SameLedger(w: World, w': World, disk: seq<Byte>)
    requires Ledger(w, disk) && CyclesOk(w') && w.dev.next <= w'.dev.next
    requires w'.disk == w.disk && w'.begun == w.begun && w'.log == w.log && w'.seen == w.seen
    ensures Ledger(w', disk)
  {
  }

  lemma StartReadKeeps(w: World, disk: seq<Byte>, offset: nat, bytes: nat)
    requires Ledger(w, disk) && Ready(w) && Can(w, StartRead(offset, bytes))
    ensures Ledger(Do(w, StartRead(offset, bytes)), disk)
  {
    var w', lo := Do(w, StartRead(offset, bytes)), AlignDown(offset, ALIGN);
    ArrivalKeeps(w.dev, lo, AlignUp(offset + bytes, ALIGN) - lo, false, None);
    forall id | id in w'.io ensures CycleOk(w', id) {
      CycleStays(w, w', id);
    }
    SameLedger(w, w', disk);
  }

  lemma WakeKeeps(w: World, disk: seq<Byte>, self: nat)
    requires Ledger(w, disk) && Ready(w) && Can(w, Wake(self))
    ensures Ledger(Do(w, Wake(self)), disk)
  {
    var w' := Do(w, Wake(self));
    ScanKeeps(Woken(w.dev, self), self);
    forall id | id in w'.io ensures CycleOk(w', id) {
      CycleStays(w, w', id);
    }
    SameLedger(w, w', disk);
  }

  lemma ReadOk(w: World, w': World, id: nat, c: Cycle)
    requires id in w.io && id in w.dev.requests && CycleOk(w, id) && Busy(w, id)
    requires w' == w.(io := w.io[id := c])
    requires
      || (w.io[id].NeedsHead() && c == w.io[id].(head := Some(Shown(w.disk, w.io[id].Lo(), ALIGN))))
      || (w.io[id].NeedsTail() && c == w.io[id].(tail := Some(Shown(w.disk, w.io[id].Last(), ALIGN))))
    ensures CycleOk(w', id)
  {
  }

  lemma ReadKeeps(w: World, disk: seq<Byte>, self: nat, c: Cycle)
    requires Ledger(w, disk) && Busy(w, self)
    requires
      || (w.io[self].NeedsHead() && c == w.io[self].(head := Some(Shown(w.disk, w.io[self].Lo(), ALIGN))))
      || (w.io[self].NeedsTail() && c == w.io[self].(tail := Some(Shown(w.disk, w.io[self].Last(), ALIGN))))
    ensures Ledger(w.(io := w.io[self := c]), disk)
  {
    var w' := w.(io := w.io[self := c]);
    forall id | id in w'.io ensures CycleOk(w', id) {
      if id == self {
        ReadOk(w, w', id, c);
      } else {
        CycleStays(w, w', id);
      }
    }
    SameLedger(w, w', disk);
  }

  lemma WrittenOk(w: World, e: Entry, disk: seq<Byte>)
    requires e.id in w.io && e.id in w.dev.requests && CycleOk(w, e.id) && InLog(w.log + [e], e.id)
    ensures CycleOk(WithEntry(w, e, disk), e.id)
  {
  }

  /** A request that has read keeps what it read while another writes its blocks, whatever it writes there. */
  lemma OthersStay(w: World, self: nat, id: nat, data: seq<Byte>)
    requires Safe(w.dev) && Known(w) && Busy(w, self) && CycleOk(w, self)
    requires w.io[self].Lo() + |data| <= w.io[self].Hi()
    requires id in w.io && id != self && CycleOk(w, id) && !w.io[id].done
    ensures Current(w.io[id], Stored(GROWS, w.disk, w.io[self].Lo(), data))
  {
    var c, other := w.io[id], w.io[self];
    if c.head.Some? || c.tail.Some? {
      BlocksApart(w.dev, id, self, c, other);
    }
    StaysCurrent(c, w.disk, other.Lo(), data);
  }

  lemma WriteCycles(w: World, e: Entry, data: seq<Byte>)
    requires CyclesOk(w) && LogOk(w) && Safe(w.dev) && Busy(w, e.id) && w.io[e.id].Lo() + |data| <= w.io[e.id].Hi()
    ensures CyclesOk(WithEntry(w, e, Stored(GROWS, w.disk, w.io[e.id].Lo(), data)))
  {
    var disk := Stored(GROWS, w.disk, w.io[e.id].Lo(), data);
    var w' := WithEntry(w, e, disk);
    assert CycleOk(w, e.id);
    LogNext(w.log, e);
    forall id | id in w'.io ensures CycleOk(w', id) {
      if id == e.id {
        WrittenOk(w, e, disk);
      } else {
        if !w.io[id].done {
          OthersStay(w, e.id, id, data);
        }
        CycleStays(w, w', id);
      }
    }
  }

  lemma WriteKeeps(w: World, disk: seq<Byte>, e: Entry, data: seq<Byte>)
    requires Ledger(w, disk) && Safe(w.dev) && Busy(w, e.id) && w.io[e.id].Lo() + |data| <= w.io[e.id].Hi()
    requires e.id in w.begun && Stored(GROWS, w.disk, w.io[e.id].Lo(), data) == Effect(w.disk, w.begun, e)
    ensures Ledger(WithEntry(w, e, Stored(GROWS, w.disk, w.io[e.id].Lo(), data)), disk)
  {
    var w' := WithEntry(w, e, Stored(GROWS, w.disk, w.io[e.id].Lo(), data));
    assert CycleOk(w, e.id);
    WriteCycles(w, e, data);
    LogNext(w.log, e);
    SeriallyNext(disk, w.begun, w.log, e);
    AnswersLogged(w, w', disk, e);
  }

  /** The write that was read for is the write alone. */
  lemma WholeKeeps(w: World, disk: seq<Byte>, id: nat)
    requires Ledger(w, disk) && Safe(w.dev) && Busy(w, id) && w.io[id].Read() && Current(w.io[id], w.disk)
    ensures Ledger(WithEntry(w, Whole(id), PaddedDisk(w, id)), disk)
  {
    assert CycleOk(w, id);
    BufferExact(w.io[id], w.disk);
    WriteKeeps(w, disk, Whole(id), w.io[id].Buffer());
  }

  lemma TornKeeps(w: World, disk: seq<Byte>, id: nat, left: seq<Byte>)
    requires Ledger(w, disk) && Safe(w.dev) && Busy(w, id) && w.io[id].Lo() + |left| <= w.io[id].Hi()
    ensures Ledger(WithEntry(w, Torn(id, left), Stored(GROWS, w.disk, w.io[id].Lo(), left)), disk)
  {
    assert CycleOk(w, id);
    WriteKeeps(w, disk, Torn(id, left), left);
  }

  lemma AnswerKeeps(w: World, disk: seq<Byte>, id: nat, offset: nat, bytes: nat)
    requires Ledger(w, disk) && (GROWS || offset + bytes <= |w.disk|)
    ensures Ledger(w.(seen := w.seen + [Seen(id, offset, Shown(w.disk, offset, bytes), |w.log|)]), disk)
  {
    var r := Seen(id, offset, Shown(w.disk, offset, bytes), |w.log|);
    var w' := w.(seen := w.seen + [r]);
    assert w.log[..|w.log|] == w.log;
    assert SeenOk(r, disk, w.begun, w.log);
    forall j | j in w'.io ensures CycleOk(w', j) {
      CycleStays(w, w', j);
    }
  }

  lemma LeaveKeeps(w: World, disk: seq<Byte>, self: nat)
    requires Ledger(w, disk) && Ready(w) && Can(w, Leave(self))
    ensures Ledger(Do(w, Leave(self)), disk)
  {
    var w' := Do(w, Leave(self));
    forall id | id in w'.io ensures CycleOk(w', id) {
      CycleStays(w, w', id);
    }
    SameLedger(w, w', disk);
  }

  lemma BusyCurrent(w: World)
    requires CyclesOk(w)
    ensures forall id :: Busy(w, id) ==> Current(w.io[id], w.disk)
  {
    forall id | Busy(w, id) ensures Current(w.io[id], w.disk) {
      assert CycleOk(w, id);
    }
  }

  lemma LedgerKeeps(w: World, disk: seq<Byte>, move: Move)
    requires Ledger(w, disk) && AsksOk(w) && Can(w, move)
    requires Listed(w.dev) && w.dev.next !in w.dev.requests && Safe(w.dev)
    ensures Ready(w) && Ledger(Do(w, move), disk)
  {
    BusyCurrent(w);
    match move
    case Start(offset, data) => StartKeeps(w, disk, Fresh(offset, data));
    case StartRead(offset, bytes) => StartReadKeeps(w, disk, offset, bytes);
    case Wake(id) => WakeKeeps(w, disk, id);
    case ReadHead(id) => ReadKeeps(w, disk, id, w.io[id].(head := Some(Shown(w.disk, w.io[id].Lo(), ALIGN))));
    case ReadTail(id) => ReadKeeps(w, disk, id, w.io[id].(tail := Some(Shown(w.disk, w.io[id].Last(), ALIGN))));
    case WriteBack(id) => WholeKeeps(w, disk, id);
    case Tear(id, left) => TornKeeps(w, disk, id, left);
    case ReadDisk(id) => AnswerKeeps(w, disk, id, w.asks[id].0, w.asks[id].1);
    case Leave(id) => LeaveKeeps(w, disk, id);
  }

  /** Requests other than the one that arrives, resumes or leaves are tracked as they were. */
  lemma AsksStay(w: World, w': World)
    requires AsksOk(w) && w'.asks.Keys <= w.asks.Keys && |w.disk| <= |w'.disk|
    requires forall id :: id in w'.asks ==>
      && w'.asks[id] == w.asks[id] && id in w'.dev.requests
      && w'.dev.requests[id] == w.dev.requests[id].(waitingFor := w'.dev.requests[id].waitingFor)
    ensures AsksOk(w')
  {
  }

  lemma ReadArrives(w: World, offset: nat, bytes: nat)
    requires AsksOk(w) && Ready(w) && Can(w, StartRead(offset, bytes))
    ensures AsksOk(Do(w, StartRead(offset, bytes)))
  {
    var lo := AlignDown(offset, ALIGN);
    ArrivalKeeps(w.dev, lo, AlignUp(offset + bytes, ALIGN) - lo, false, None);
  }

  lemma WriteArrives(w: World, c: Cycle)
    requires AsksOk(w) && Listed(w.dev) && w.dev.next !in w.dev.requests
    ensures AsksOk(WithStart(w, c))
  {
    ArrivalKeeps(w.dev, c.offset, |c.data|, true, if c.Padded() then Some(ALIGN) else None);
  }

  lemma WakesUp(w: World, self: nat)
    requires AsksOk(w) && Listed(w.dev) && w.dev.next !in w.dev.requests && Enabled(w.dev, Resume(self))
    ensures AsksOk(w.(dev := Apply(w.dev, Resume(self))))
  {
    ScanKeeps(Woken(w.dev, self), self);
  }

  lemma Leaves(w: World, self: nat)
    requires AsksOk(w) && Listed(w.dev) && w.dev.next !in w.dev.requests && Enabled(w.dev, Finish(self))
    ensures AsksOk(w.(dev := Apply(w.dev, Finish(self)), io := w.io - {self}, asks := w.asks - {self}))
  {
  }

  lemma AsksKeep(w: World, move: Move)
    requires AsksOk(w) && Ready(w) && Can(w, move)
    ensures AsksOk(Do(w, move))
  {
    match move
    case Start(offset, data) => WriteArrives(w, Fresh(offset, data));
    case StartRead(offset, bytes) => ReadArrives(w, offset, bytes);
    case Wake(id) => WakesUp(w, id);
    case Leave(id) => Leaves(w, id);
    case _ => AsksStay(w, Do(w, move));
  }

  /** Every move keeps the invariant. */
  lemma MoveKeeps(w: World, disk: seq<Byte>, move: Move)
    requires WorldInv(w, disk) && Can(w, move)
    ensures Ready(w) && WorldInv(Do(w, move), disk)
  {
    LedgerKeeps(w, disk, move);
    AsksKeep(w, move);
    match move
    case Start(offset, data) => StepKeepsInv(w.dev, Arrival(Fresh(offset, data)));
    case StartRead(offset, bytes) => StepKeepsInv(w.dev, ReadArrival(offset, bytes));
    case Wake(id) => StepKeepsInv(w.dev, Resume(id));
    case ReadHead(id) =>
    case ReadTail(id) =>
    case WriteBack(id) =>
    case Tear(id, left) =>
    case ReadDisk(id) =>
    case Leave(id) => StepKeepsInv(w.dev, Finish(id));
  }

  /** The world after some moves, in any order; it stops at the first that cannot happen. */
  ghost function Play(w: World, disk: seq<Byte>, moves: seq<Move>): (w': World)
    requires WorldInv(w, disk)
    ensures WorldInv(w', disk)
    decreases |moves|
  {
    if moves == [] || !Can(w, moves[0]) then w
    else
      MoveKeeps(w, disk, moves[0]);
      Play(Do(w, moves[0]), disk, moves[1..])
  }

  // ---- A write that has passed its wait ----

  /** What is left to do for a write. */
  function Rest(c: Cycle, id: nat): seq<Move> {
    (if c.NeedsHead() && c.head.None? then [ReadHead(id)] else []) +
    (if c.NeedsTail() && c.tail.None? then [ReadTail(id)] else []) + [WriteBack(id)]
  }

  lemma ReadGoesOn(w: World, id: nat)
    requires Ready(w) && Busy(w, id) && !w.io[id].Read()
    ensures var c := w.io[id];
      var move := Rest(c, id)[0];
      && Can(w, move) && var w' := Do(w, move);
      Busy(w', id) && Rest(w'.io[id], id) == Rest(c, id)[1..] && w'.disk == w.disk && w'.log == w.log
  {
    var c := w.io[id];
    if c.NeedsHead() && c.head.None? {
      var c' := c.(head := Some(Shown(w.disk, c.Lo(), ALIGN)));
      assert Do(w, ReadHead(id)).io[id] == c';
      assert Rest(c', id) == Rest(c, id)[1..];
    } else {
      var c' := c.(tail := Some(Shown(w.disk, c.Last(), ALIGN)));
      assert Do(w, ReadTail(id)).io[id] == c';
      assert Rest(c', id) == Rest(c, id)[1..];
    }
  }

  lemma WriteGoesOut(w: World, id: nat)
    requires Ready(w) && Busy(w, id) && w.io[id].Read()
    ensures Rest(w.io[id], id) == [WriteBack(id)] && Can(w, WriteBack(id))
    ensures var c, w' := w.io[id], Do(w, WriteBack(id));
      w'.log == w.log + [Whole(id)] && w'.disk == Alone(w.disk, c.offset, c.data) && w'.io[id].done
  {
    BufferExact(w.io[id], w.disk);
  }

  /** A write that has passed its wait goes through: what is left to do for it can be done next, whatever the
      other requests are at, and brings it one move closer to its write, which changes exactly its bytes. */
  lemma WriteGoesOn(w: World, disk: seq<Byte>, id: nat)
    requires WorldInv(w, disk) && Busy(w, id)
    ensures Ready(w)
    ensures var c := w.io[id];
      var move := Rest(c, id)[0];
      && Can(w, move) && var w' := Do(w, move);
      if |Rest(c, id)| == 1 then
        w'.log == w.log + [Whole(id)] && w'.disk == Alone(w.disk, c.offset, c.data) && w'.io[id].done
      else
        Busy(w', id) && Rest(w'.io[id], id) == Rest(c, id)[1..] && w'.disk == w.disk && w'.log == w.log
  {
    BusyCurrent(w);
    if w.io[id].Read() {
      WriteGoesOut(w, id);
    } else {
      ReadGoesOn(w, id);
    }
  }

  // ---- What the moves were ----

  predicate Opens(move: Move) { move.Start? || move.StartRead? }

  predicate Ends(move: Move) { move.WriteBack? || move.Tear? }

  predicate Answers(move: Move) { move.ReadDisk? }

  /** The moves of one kind, in their order. */
  function Only(moves: seq<Move>, kind: Move -> bool): seq<Move> {
    if moves == [] then [] else
      var last := moves[|moves| - 1];
      Only(moves[..|moves| - 1], kind) + if kind(last) then [last] else []
  }

  lemma OnlyNext(moves: seq<Move>, move: Move, kind: Move -> bool)
    ensures Only(moves + [move], kind) == Only(moves, kind) + if kind(move) then [move] else []
  {
    assert (moves + [move])[..|moves|] == moves;
  }

  /** The requests are numbered in the order of their moves: each write begun, and each read
      on its way, is the one of the move with its number. */
  ghost predicate StartsOk(w: World, starts: seq<Move>) {
    && w.dev.next == |starts|
    && (forall id: nat :: id in w.begun <==> id < |starts| && starts[id].Start?)
    && (forall id: nat :: id in w.begun ==> id < |starts| && starts[id] == Start(w.begun[id].0, w.begun[id].1))
    && (forall id: nat :: id in w.asks ==> id < |starts| && starts[id] == StartRead(w.asks[id].0, w.asks[id].1))
  }

  /** The log has the writes that ended, in the order of their moves. */
  ghost predicate EndedOk(log: seq<Entry>, ended: seq<Move>) {
    && |log| == |ended|
    && forall k :: 0 <= k < |log| ==>
      ended[k] == match log[k] case Whole(id) => WriteBack(id) case Torn(id, left) => Tear(id, left)
  }

  /** Move j gave answer k, after the writes that it counts. */
  ghost predicate AnswerAt(r: Seen, k: nat, moves: seq<Move>, j: nat)
    requires j < |moves|
  {
    moves[j] == ReadDisk(r.id) && |Only(moves[..j], Answers)| == k && |Only(moves[..j], Ends)| == r.after
  }

  /** Answer k was given by the k-th such move, to a read of that offset and length, and counts the writes
      that had ended by then. */
  ghost predicate AnswerOk(r: Seen, k: nat, moves: seq<Move>, starts: seq<Move>) {
    && r.id < |starts| && starts[r.id] == StartRead(r.offset, |r.got|)
    && exists j :: 0 <= j < |moves| && AnswerAt(r, k, moves, j)
  }

  ghost predicate AnswersOk(seen: seq<Seen>, moves: seq<Move>, starts: seq<Move>) {
    && |seen| == |Only(moves, Answers)|
    && forall k :: 0 <= k < |seen| ==> AnswerOk(seen[k], k, moves, starts)
  }

  /** What the world records is what these moves were. */
  ghost predicate History(w: World, moves: seq<Move>) {
    var starts := Only(moves, Opens);
    StartsOk(w, starts) && EndedOk(w.log, Only(moves, Ends)) && AnswersOk(w.seen, moves, starts)
  }

  lemma AnswerStays(r: Seen, k: nat, moves: seq<Move>, move: Move, starts: seq<Move>, more: seq<Move>)
    requires AnswerOk(r, k, moves, starts)
    ensures AnswerOk(r, k, moves + [move], starts + more)
  {
    var j :| 0 <= j < |moves| && AnswerAt(r, k, moves, j);
    assert (moves + [move])[..j] == moves[..j];
    assert AnswerAt(r, k, moves + [move], j);
  }

  /** The answers of a move that gives none. */
  lemma AnswersStay(seen: seq<Seen>, moves: seq<Move>, move: Move, starts: seq<Move>, more: seq<Move>)
    requires AnswersOk(seen, moves, starts) && !Answers(move)
    ensures AnswersOk(seen, moves + [move], starts + more)
  {
    OnlyNext(moves, move, Answers);
    forall k | 0 <= k < |seen| ensures AnswerOk(seen[k], k, moves + [move], starts + more) {
      AnswerStays(seen[k], k, moves, move, starts, more);
    }
  }

  lemma AnswersNext(seen: seq<Seen>, r: Seen, moves: seq<Move>, starts: seq<Move>)
    requires AnswersOk(seen, moves, starts) && r.id < |starts| && starts[r.id] == StartRead(r.offset, |r.got|)
    requires r.after == |Only(moves, Ends)|
    ensures AnswersOk(seen + [r], moves + [ReadDisk(r.id)], starts)
  {
    var move := ReadDisk(r.id);
    OnlyNext(moves, move, Answers);
    assert starts + [] == starts;
    assert (moves + [move])[..|moves|] == moves;
    assert AnswerAt(r, |seen|, moves + [move], |moves|);
    forall k | 0 <= k <= |seen| ensures AnswerOk((seen + [r])[k], k, moves + [move], starts) {
      if k < |seen| {
        AnswerStays(seen[k], k, moves, move, starts, []);
      }
    }
  }

  /** The tracked requests change their count only when one arrives. */
  lemma NextKeeps(w: World, move: Move)
    requires Ready(w) && Can(w, move)
    ensures Do(w, move).dev.next == w.dev.next + if Opens(move) then 1 else 0
  {
  }

  /** A request that a move opens gets the next number. */
  lemma StartsKeep(w: World, w': World, starts: seq<Move>, move: Move)
    requires StartsOk(w, starts) && w'.dev.next == w.dev.next + 1
    requires
      || (move.Start? && w'.begun == w.begun[w.dev.next := (move.offset, move.data)] && w'.asks == w.asks)
      || (move.StartRead? && w'.asks == w.asks[w.dev.next := (move.offset, move.bytes)] && w'.begun == w.begun)
    ensures StartsOk(w', starts + [move])
  {
  }

  lemma OpenedKeeps(w: World, moves: seq<Move>, move: Move)
    requires Ready(w) && Can(w, move)
    requires StartsOk(w, Only(moves, Opens))
    ensures StartsOk(Do(w, move), Only(moves + [move], Opens))
  {
    NextKeeps(w, move);
    OnlyNext(moves, move, Opens);
    if Opens(move) {
      StartsKeep(w, Do(w, move), Only(moves, Opens), move);
    } else {
      assert Do(w, move).begun == w.begun && Do(w, move).asks.Keys <= w.asks.Keys;
    }
  }

  function Ending(move: Move): seq<Entry> {
    match move
    case WriteBack(id) => [Whole(id)]
    case Tear(id, left) => [Torn(id, left)]
    case _ => []
  }

  lemma LogNow(w: World, move: Move)
    requires Ready(w) && Can(w, move)
    ensures Do(w, move).log == w.log + Ending(move)
  {
  }

  lemma EndedOne(log: seq<Entry>, e: Entry, ended: seq<Move>, move: Move)
    requires EndedOk(log, ended) && Ending(move) == [e]
    ensures EndedOk(log + [e], ended + [move])
  {
  }

  lemma EndedMore(log: seq<Entry>, moves: seq<Move>, move: Move)
    requires EndedOk(log, Only(moves, Ends))
    ensures EndedOk(log + Ending(move), Only(moves + [move], Ends))
  {
    var ended := Only(moves, Ends);
    OnlyNext(moves, move, Ends);
    if Ends(move) {
      EndedOne(log, Ending(move)[0], ended, move);
    } else {
      assert log + Ending(move) == log && Only(moves + [move], Ends) == ended;
    }
  }

  lemma EndedKeeps(w: World, moves: seq<Move>, move: Move)
    requires Ready(w) && Can(w, move)
    requires EndedOk(w.log, Only(moves, Ends))
    ensures EndedOk(Do(w, move).log, Only(moves + [move], Ends))
  {
    LogNow(w, move);
    EndedMore(w.log, moves, move);
  }

  lemma AnsweredKeeps(w: World, moves: seq<Move>, move: Move)
    requires Ready(w) && Can(w, move)
    requires History(w, moves)
    ensures AnswersOk(Do(w, move).seen, moves + [move], Only(moves + [move], Opens))
  {
    var starts := Only(moves, Opens);
    OnlyNext(moves, move, Opens);
    match move
    case ReadDisk(id) =>
      var (offset, bytes) := w.asks[id];
      AnswersNext(w.seen, Seen(id, offset, Shown(w.disk, offset, bytes), |w.log|), moves, starts);
    case _ => AnswersStay(w.seen, moves, move, starts, if Opens(move) then [move] else []);
  }

  lemma HistoryKeeps(w: World, moves: seq<Move>, move: Move)
    requires Ready(w) && Can(w, move)
    requires History(w, moves)
    ensures History(Do(w, move), moves + [move])
  {
    OpenedKeeps(w, moves, move);
    EndedKeeps(w, moves, move);
    AnsweredKeeps(w, moves, move);
  }

  /** The world is what comes of n moves, and the next, if there is one, cannot happen. */
  ghost predicate StopsAt(w: World, before: seq<Move>, moves: seq<Move>, n: nat)
    requires n <= |moves|
  {
    History(w, before + moves[..n]) && (n < |moves| ==> !Can(w, moves[n]))
  }

  ghost predicate Happened(w: World, before: seq<Move>, moves: seq<Move>) {
    exists n :: 0 <= n <= |moves| && StopsAt(w, before, moves, n)
  }

  lemma HappenedNext(w: World, before: seq<Move>, moves: seq<Move>)
    requires moves != [] && Happened(w, before + [moves[0]], moves[1..])
    ensures Happened(w, before, moves)
  {
    var rest := moves[1..];
    var n :| 0 <= n <= |rest| && StopsAt(w, before + [moves[0]], rest, n);
    assert before + moves[..n + 1] == before + [moves[0]] + rest[..n];
    assert StopsAt(w, before, moves, n + 1);
  }

  lemma {:induction false} PlayHistory(w: World, disk: seq<Byte>, before: seq<Move>, moves: seq<Move>)
    requires WorldInv(w, disk) && History(w, before)
    ensures Happened(Play(w, disk, moves), before, moves)
    decreases |moves|
  {
    if moves == [] || !Can(w, moves[0]) {
      assert before + moves[..0] == before;
      assert StopsAt(w, before, moves, 0);
    } else {
      MoveKeeps(w, disk, moves[0]);
      HistoryKeeps(w, before, moves[0]);
      PlayHistory(Do(w, moves[0]), disk, before + [moves[0]], moves[1..]);
      HappenedNext(Play(w, disk, moves), before, moves);
    }
  }

  /** The blocks that a request touches, from the first byte to the end. */
  function Extent(w: World, id: nat): (nat, nat)
    requires id in w.io || id in w.asks
  {
    if id in w.io then (w.io[id].Lo(), w.io[id].Hi())
    else (AlignDown(w.asks[id].0, ALIGN), AlignUp(w.asks[id].0 + w.asks[id].1, ALIGN))
  }

  /** A padded write past its wait shares no block with any other request past its wait. */
  ghost predicate Exclusive(w: World) {
    forall a, b ::
      a != b && a in w.dev.passed && (a in w.io || a in w.asks) && b in w.dev.passed && b in w.io && w.io[b].Padded()
      ==> Extent(w, a).1 <= Extent(w, b).0 || Extent(w, b).1 <= Extent(w, a).0
  }

  lemma PaddedExclusive(w: World)
    requires CyclesOk(w) && AsksOk(w) && Safe(w.dev)
    ensures Exclusive(w)
  {
    forall a, b | a != b && a in w.dev.passed && (a in w.io || a in w.asks)
      && b in w.dev.passed && b in w.io && w.io[b].Padded()
      ensures Extent(w, a).1 <= Extent(w, b).0 || Extent(w, b).1 <= Extent(w, a).0
    {
      assert CycleOk(w, b) && (a in w.io ==> CycleOk(w, a));
      assert !Conflicts(w.dev.requests[a], w.dev.requests[b]);
    }
  }

  /** However the requests take turns, the disk is what carrying out one write after the other, in the order of
      the log, leaves: no padding undoes another request's write. Each write is carried out at most once,
      and each answer to a read is what the disk shows after some first part of that order, later answers
      never after a shorter part. A padded write shares no block with another request past its wait. The
      writes, the log and the answers are those of the moves up to the first that cannot happen. */
  lemma SerialOrder(disk: seq<Byte>, moves: seq<Move>)
    ensures WorldInv(Begun(disk), disk)
    ensures var w := Play(Begun(disk), disk, moves);
      && LogOk(w) && w.disk == Serially(disk, w.begun, w.log) && ReadsOk(w, disk)
      && (forall id :: id in w.io ==>
        && id in w.begun && w.begun[id] == (w.io[id].offset, w.io[id].data)
        && (w.io[id].done <==> InLog(w.log, id)))
      && Exclusive(w) && Happened(w, [], moves)
  {
    assert Inv(INITIAL);
    var w := Play(Begun(disk), disk, moves);
    PlayHistory(Begun(disk), disk, [], moves);
    PaddedExclusive(w);
    forall id | id in w.io ensures CycleOk(w, id) {
    }
  }
}
