/** Reads and writes of any offset and length through a device that only does whole blocks. */
module Rmw {
  import opened Values
  import opened Arith
  import opened Serialise

  const SECTOR: nat := 512
  const INT_MAX: nat := 0x7fff_ffff

  datatype Outcome = Ok | NoMedium | ReadOnly | IoError

  /** What may go wrong in a read: asking for the length of a device, and the driver's read. */
  datatype ReadFault = ReadFault(length: bool, read: bool)

  /** What may go wrong in a write: the answer of the write notifiers, the sectors at which a write of the
      driver fails, what a failed write leaves in its range, and the flush. */
  datatype WriteFault = WriteFault(notified: int, fails: set<nat>, left: seq<Byte>, flush: bool)

  /** The bytes [offset, offset + |data|) replaced; a write past the end grows the disk, the gap
      reading as zeros. */
  function Written(disk: seq<Byte>, offset: nat, data: seq<Byte>): (r: seq<Byte>)
    ensures |r| == if data == [] then |disk| else Max(|disk|, offset + |data|)
    ensures forall i :: 0 <= i < |r| ==>
      r[i] == if offset <= i < offset + |data| then data[i - offset] else if i < |disk| then disk[i] else 0
  {
    if data == [] then disk
    else
      var total := Max(|disk|, offset + |data|);
      seq(total, i requires 0 <= i < total =>
        if offset <= i < offset + |data| then data[i - offset] else if i < |disk| then disk[i] else 0)
  }

  function Max(a: nat, b: nat): nat { if a >= b then a else b }
  function Min(a: nat, b: nat): nat { if a <= b then a else b }

  predicate AllZero(data: seq<Byte>) {
    forall i :: 0 <= i < |data| ==> data[i] == 0
  }

  function Zeros(n: nat): (r: seq<Byte>)
    ensures |r| == n && AllZero(r)
  {
    seq(n, _ => 0)
  }

  /** What a write leaves on a disk that grows with it, or that keeps its length and so shows nothing of
      what is written past its end. */
  function Stored(grows: bool, disk: seq<Byte>, offset: nat, data: seq<Byte>): (r: seq<Byte>)
    ensures |r| == if grows then |Written(disk, offset, data)| else |disk|
    ensures forall i :: 0 <= i < |r| ==>
      r[i] == if offset <= i < offset + |data| then data[i - offset] else if i < |disk| then disk[i] else 0
  {
    if grows then Written(disk, offset, data) else Written(disk, offset, data)[..|disk|]
  }

  /** Two adjacent writes are one. */
  lemma StoredTwice(grows: bool, disk: seq<Byte>, offset: nat, a: seq<Byte>, b: seq<Byte>)
    ensures Stored(grows, Stored(grows, disk, offset, a), offset + |a|, b) == Stored(grows, disk, offset, a + b)
  {
    var l, r := Stored(grows, Stored(grows, disk, offset, a), offset + |a|, b), Stored(grows, disk, offset, a + b);
    assert a + b == [] <==> a == [] && b == [];
    assert |l| == |r|;
    forall i | 0 <= i < |l| ensures l[i] == r[i] {
    }
  }

  /** Nothing but the bytes [lo, hi) changed, whatever they are now; bytes that a growing disk gained
      before them are zero. */
  ghost predicate Confined(before: seq<Byte>, after: seq<Byte>, lo: nat, hi: nat) {
    && |before| <= |after| <= Max(|before|, hi) && |after| % SECTOR == 0
    && forall i :: 0 <= i < |after| && !(lo <= i < hi) ==> after[i] == if i < |before| then before[i] else 0
  }

  /** What a failed write of some sectors leaves of them. */
  function Torn(left: seq<Byte>, sectors: nat): (r: seq<Byte>)
    requires |left| % SECTOR == 0
    ensures |r| <= sectors * SECTOR && |r| % SECTOR == 0
  {
    if |left| <= sectors * SECTOR then left else left[..sectors * SECTOR]
  }

  lemma StoredConfined(grows: bool, disk: seq<Byte>, offset: nat, data: seq<Byte>, hi: nat)
    requires |disk| % SECTOR == 0 && (offset + |data|) % SECTOR == 0 && offset + |data| <= hi
    ensures Confined(disk, Stored(grows, disk, offset, data), offset, hi)
  {
    var after := Stored(grows, disk, offset, data);
    forall i | 0 <= i < |after| && !(offset <= i < hi) ensures after[i] == if i < |disk| then disk[i] else 0 {
    }
  }

  lemma AlignDownFacts(n: nat, align: nat)
    requires align > 0
    ensures AlignDown(n, align) % align == 0 && n < AlignDown(n, align) + align
  {
    assert n == (n / align) * align + n % align;
    DivOfMultiple(n / align, align, 0);
  }

  lemma AlignFacts(n: nat, align: nat)
    requires align > 0
    ensures AlignDown(n, align) % align == 0 && AlignUp(n, align) % align == 0
    ensures n < AlignDown(n, align) + align && AlignUp(n, align) < n + align
    ensures AlignUp(n, align) == if n % align == 0 then n else AlignDown(n, align) + align
  {
    var q, r := n / align, n % align;
    assert n == q * align + r;
    AlignDownFacts(n, align);
    AlignDownFacts(n + align - 1, align);
    if r == 0 {
      DivOfMultiple(q, align, align - 1);
    } else {
      MulDistributes(q, 1, align);
      DivOfMultiple(q + 1, align, r - 1);
    }
  }

  /** qiov at offset0, padded to [lo, hi) with what is shown around it. */
  function PaddedWith(show: nat -> Byte, offset0: nat, qiov: seq<Byte>, lo: nat, hi: nat): (r: seq<Byte>)
    requires lo <= hi
    ensures |r| == hi - lo
    ensures forall i :: 0 <= i < |r| ==>
      r[i] == if offset0 <= lo + i < offset0 + |qiov| then qiov[lo + i - offset0] else show(lo + i)
  {
    seq(hi - lo, i requires 0 <= i =>
      if offset0 <= lo + i < offset0 + |qiov| then qiov[lo + i - offset0] else show(lo + i))
  }

  class Image {
    var disk: seq<Byte>
    var hasDriver: bool
    var inserted: bool
    var readOnly: bool
    var growable: bool
    var zeroBeyondEof: bool
    var detectZeroes: bool
    var writeCache: bool
    /** Request alignment of the driver, and what the driver returns past the end of the disk. */
    const align: nat
    const beyond: nat -> Byte
    /** Block limits: alignment (0 for none) and largest size of a zero write, in sectors. */
    const zeroAlignment: nat
    const maxZeroes: nat

    predicate Valid()
      reads this
    {
      0 < align && align % SECTOR == 0 && 0 < maxZeroes && |disk| % SECTOR == 0
    }

    /** What an aligned read shows past the end of the disk. */
    function Past(i: nat): Byte
      reads this`zeroBeyondEof, this`growable
    {
      if zeroBeyondEof && growable then 0 else beyond(i)
    }

    function At(i: nat): Byte
      reads this
    {
      if i < |disk| then disk[i] else Past(i)
    }

    method DriverRead(offset: nat, bytes: nat) returns (buf: seq<Byte>)
      ensures |buf| == bytes
      ensures forall i :: 0 <= i < bytes ==>
        buf[i] == if offset + i < |disk| then disk[offset + i] else beyond(offset + i)
    {
      var d, past := disk, beyond;
      buf := seq(bytes, i requires 0 <= i => if offset + i < |d| then d[offset + i] else past(offset + i));
    }

    /** A read from offset on fails; past the end of a growable disk the driver is not asked. */
    predicate ReadFails(offset: nat, fault: ReadFault)
      reads this
    {
      if zeroBeyondEof && growable then fault.length || (fault.read && offset < |disk|) else fault.read
    }

    /** `bdrv_aligned_preadv` into a buffer that holds `stale` before. */
    method AlignedPreadv(offset: nat, stale: seq<Byte>, fault: ReadFault) returns (ok: bool, buf: seq<Byte>)
      requires Valid() && offset % SECTOR == 0 && |stale| % SECTOR == 0
      ensures ok == !ReadFails(offset, fault)
      ensures ok ==> |buf| == |stale| && forall i :: 0 <= i < |buf| ==> buf[i] == At(offset + i)
      ensures ok ==> forall i :: 0 <= i < |buf| && offset + i < |disk| ==> buf[i] == disk[offset + i]
      ensures ok && zeroBeyondEof && growable ==> forall i :: 0 <= i < |buf| && |disk| <= offset + i ==> buf[i] == 0
    {
      if zeroBeyondEof && growable {
        ok, buf := ReadToEnd(offset, stale, fault);
      } else {
        buf := DriverRead(offset, |stale|);
        ok := !fault.read;
      }
    }

    /** The read of a growable disk, which shows zeros past the end. */
    method ReadToEnd(offset: nat, stale: seq<Byte>, fault: ReadFault) returns (ok: bool, buf: seq<Byte>)
      requires Valid() && offset % SECTOR == 0 && |stale| % SECTOR == 0
      ensures ok == !(fault.length || (fault.read && offset < |disk|))
      ensures ok ==> |buf| == |stale|
      ensures ok ==> forall i :: 0 <= i < |buf| ==> buf[i] == if offset + i < |disk| then disk[offset + i] else 0
    {
      ok, buf := !fault.length, stale;
      if !ok {
        return;
      }
      var sectorNum, nbSectors := offset / SECTOR, |stale| / SECTOR;
      var totalSectors := (|disk| + SECTOR - 1) / SECTOR;
      WholeSectors(|disk|);
      var inside := if totalSectors > sectorNum then totalSectors - sectorNum else 0;
      var maxNbSectors := AlignUp(inside, align / SECTOR);
      AlignFacts(inside, align / SECTOR);
      if maxNbSectors > 0 {
        var localSectors := Min(maxNbSectors, nbSectors);
        var got := DriverRead(offset, localSectors * SECTOR);
        if fault.read {
          return false, buf;
        }
        buf := got + stale[localSectors * SECTOR..];
      }
      if totalSectors < sectorNum + nbSectors {
        buf := buf[..inside * SECTOR] + Zeros(|stale| - inside * SECTOR);
      }
    }

    /** How many of nb sectors from sector on the next zero write takes. */
    function Chunk(sector: nat, nb: nat): (num: nat)
      requires 0 < maxZeroes && nb > 0
      ensures 0 < num <= nb && num <= maxZeroes
      ensures nb <= zeroAlignment || zeroAlignment == 0 ==> num == nb || num == maxZeroes
      ensures 0 < zeroAlignment < nb ==> num == maxZeroes || (sector + num) % zeroAlignment == 0
      ensures 0 < zeroAlignment < nb && sector % zeroAlignment != 0 ==> num <= zeroAlignment - sector % zeroAlignment
      ensures 0 < zeroAlignment < nb && sector % zeroAlignment == 0 ==> num == maxZeroes || nb - num < zeroAlignment
    {
      ToNextMultiple(sector, zeroAlignment);
      ToNextMultiple(sector + nb, zeroAlignment);
      var num :=
        if zeroAlignment > 0 && nb > zeroAlignment then
          if sector % zeroAlignment != 0 then zeroAlignment - sector % zeroAlignment
          else nb - (sector + nb) % zeroAlignment
        else nb;
      Min(num, maxZeroes)
    }

    /** No zero write of nb sectors from sector on fails. */
    predicate ChunksOk(sector: nat, nb: nat, fails: set<nat>)
      requires 0 < maxZeroes
      decreases nb
    {
      || nb == 0
      || (sector !in fails && var num := Chunk(sector, nb); ChunksOk(sector + num, nb - num, fails))
    }

    /** `bdrv_co_do_write_zeroes`: chunks that respect the driver's alignment and size limits. */
    method WriteZeroes(sector: nat, sectors: nat, fault: WriteFault) returns (ok: bool)
      requires Valid() && |fault.left| % SECTOR == 0
      modifies this`disk
      ensures ok <==> ChunksOk(sector, sectors, fault.fails)
      ensures ok ==> disk == Stored(growable, old(disk), sector * SECTOR, Zeros(sectors * SECTOR))
      ensures !ok ==> Confined(old(disk), disk, sector * SECTOR, (sector + sectors) * SECTOR)
    {
      var sectorNum, nbSectors := sector, sectors;
      while nbSectors > 0
        invariant sectorNum + nbSectors == sector + sectors && sector <= sectorNum && 0 <= nbSectors
        invariant disk == Stored(growable, old(disk), sector * SECTOR, Zeros((sectorNum - sector) * SECTOR))
        invariant ChunksOk(sector, sectors, fault.fails) == ChunksOk(sectorNum, nbSectors, fault.fails)
        decreases nbSectors
      {
        var num := Chunk(sectorNum, nbSectors);
        if sectorNum in fault.fails {
          var torn := Torn(fault.left, num);
          TornChunk(growable, old(disk), sector, sectorNum, torn, sector + sectors);
          disk := Stored(growable, disk, sectorNum * SECTOR, torn);
          return false;
        }
        NextChunk(growable, old(disk), sector, sectorNum, num);
        disk := Stored(growable, disk, sectorNum * SECTOR, Zeros(num * SECTOR));
        sectorNum, nbSectors := sectorNum + num, nbSectors - num;
      }
      ok := true;
    }

    method DriverWrite(offset: nat, data: seq<Byte>, fault: WriteFault) returns (ok: bool)
      requires Valid() && offset % SECTOR == 0 && |data| % SECTOR == 0 && |fault.left| % SECTOR == 0
      modifies this`disk
      ensures ok <==> offset / SECTOR !in fault.fails
      ensures ok ==> disk == Stored(growable, old(disk), offset, data)
      ensures !ok ==> Confined(old(disk), disk, offset, offset + |data|)
    {
      ok := offset / SECTOR !in fault.fails;
      if ok {
        disk := Stored(growable, disk, offset, data);
      } else {
        var torn := Torn(fault.left, |data| / SECTOR);
        StoredConfined(growable, disk, offset, torn, offset + |data|);
        disk := Stored(growable, disk, offset, torn);
      }
    }

    /** The data is written as zeros. */
    predicate AsZeroes(data: seq<Byte>, fault: WriteFault)
      reads this
    {
      fault.notified == 0 && detectZeroes && AllZero(data)
    }

    /** The notifiers refuse the write, or the driver fails it. */
    predicate NotWritten(offset: nat, data: seq<Byte>, fault: WriteFault)
      requires Valid()
      reads this
    {
      || fault.notified < 0
      || if AsZeroes(data, fault) then !ChunksOk(offset / SECTOR, |data| / SECTOR, fault.fails)
         else offset / SECTOR in fault.fails
    }

    predicate WriteFails(offset: nat, data: seq<Byte>, fault: WriteFault)
      requires Valid()
      reads this
    {
      NotWritten(offset, data, fault) || (!writeCache && fault.flush)
    }

    /** `bdrv_aligned_pwritev`, with its assertions about the tracked request. */
    method AlignedPwritev(req: Request, offset: nat, data: seq<Byte>, fault: WriteFault) returns (ok: bool)
      requires Valid() && offset % SECTOR == 0 && |data| % SECTOR == 0 && |fault.left| % SECTOR == 0
      requires req.overlapOffset <= offset && offset + |data| <= req.overlapOffset + req.overlapBytes
      modifies this`disk
      ensures ok <==> !old(WriteFails(offset, data, fault))
      ensures !old(NotWritten(offset, data, fault)) ==> disk == Stored(growable, old(disk), offset, data)
      ensures fault.notified < 0 ==> disk == old(disk)
      ensures Valid() && Confined(old(disk), disk, offset, offset + |data|)
    {
      StoredConfined(growable, disk, offset, data, offset + |data|);
      if fault.notified < 0 {
        return false;
      }
      if fault.notified == 0 && detectZeroes && AllZero(data) {
        WholeSectors(offset);
        WholeSectors(|data|);
        assert Zeros(|data|) == data;
        ok := WriteZeroes(offset / SECTOR, |data| / SECTOR, fault);
      } else {
        ok := DriverWrite(offset, data, fault);
      }
      ok := ok && (writeCache || !fault.flush);
    }

    /** The request is not too long, there is a medium, and the request lies on it or it grows. */
    predicate RequestOk(offset: nat, bytes: nat)
      reads this
    {
      bytes <= INT_MAX && inserted && (growable || offset + bytes <= |disk|)
    }

    /** `bdrv_check_byte_request`. */
    method CheckByteRequest(offset: nat, bytes: nat) returns (ok: bool)
      ensures ok <==> RequestOk(offset, bytes)
    {
      if bytes > INT_MAX {
        return false;
      }
      if !inserted {
        return false;
      }
      if growable {
        return true;
      }
      var len := |disk|;
      if offset > len || len - offset < bytes {
        return false;
      }
      ok := true;
    }

    /** `local` at `offset` is `qiov` at `offset0`, padded with what the device shows around it. */
    ghost predicate Pads(offset0: nat, qiov: seq<Byte>, offset: nat, local: seq<Byte>)
      reads this
    {
      && offset <= offset0 && offset0 + |qiov| <= offset + |local|
      && forall i :: 0 <= i < |local| ==>
           local[i] == if offset0 <= offset + i < offset0 + |qiov| then qiov[offset + i - offset0] else At(offset + i)
    }

    function Shown(): (show: nat -> Byte)
      reads this
      ensures forall i :: show(i) == At(i)
    {
      var d, past, zero := disk, beyond, zeroBeyondEof && growable;
      (i: nat) => if i < |d| then d[i] else if zero then 0 else past(i)
    }

    /** The write's data padded to whole blocks. */
    function Padded(offset0: nat, qiov: seq<Byte>): (r: seq<Byte>)
      requires Valid()
      reads this
      ensures AlignDown(offset0, align) + |r| == AlignUp(offset0 + |qiov|, align)
      ensures Pads(offset0, qiov, AlignDown(offset0, align), r)
    {
      var lo, hi := AlignDown(offset0, align), AlignUp(offset0 + |qiov|, align);
      AlignFacts(offset0, align);
      AlignFacts(offset0 + |qiov|, align);
      PaddedWith(Shown(), offset0, qiov, lo, hi)
    }

    lemma PadsUnique(offset0: nat, qiov: seq<Byte>, offset: nat, a: seq<Byte>, b: seq<Byte>)
      requires Pads(offset0, qiov, offset, a) && Pads(offset0, qiov, offset, b) && |a| == |b|
      ensures a == b
    {
    }

    /** The request has been written: exactly its bytes are new. A growable disk grew just to the end of its
        last block, with zeros or what the device shows there. A disk of fixed size keeps its length, also
        when it ends inside that block, whose part past the end is written as it was read. */
    ghost predicate Wrote(before: seq<Byte>, after: seq<Byte>, offset0: nat, qiov: seq<Byte>)
      requires 0 < align
      reads this`zeroBeyondEof, this`growable
    {
      var lo, hi := AlignDown(offset0, align), AlignUp(offset0 + |qiov|, align);
      && Exact(before, after, offset0, qiov)
      && |after| == (if lo == hi || !growable then |before| else Max(|before|, hi))
      && forall i :: |before| <= i < |after| && !(offset0 <= i < offset0 + |qiov|) ==>
        after[i] == 0 || after[i] == Past(i)
    }

    lemma PadsExact(offset0: nat, qiov: seq<Byte>, offset: nat, local: seq<Byte>)
      requires Valid() && Pads(offset0, qiov, offset, local) && (growable || offset0 + |qiov| <= |disk|)
      requires offset == AlignDown(offset0, align) && offset + |local| == AlignUp(offset0 + |qiov|, align)
      ensures Wrote(disk, Stored(growable, disk, offset, local), offset0, qiov)
    {
      var after := Stored(growable, disk, offset, local);
      forall i | 0 <= i < |after| && offset <= i < offset + |local|
        ensures after[i] == if offset0 <= i < offset0 + |qiov| then qiov[i - offset0] else At(i)
      {
        assert after[i] == local[i - offset];
      }
    }

    /** The head half of the read-modify-write cycle. */
    method PadHead(offset0: nat, qiov: seq<Byte>, stale: seq<Byte>, fault: ReadFault)
      returns (ok: bool, offset: nat, local: seq<Byte>, req: Request)
      requires Valid() && |stale| == align
      ensures ok == !(offset0 % align != 0 && ReadFails(AlignDown(offset0, align), fault))
      ensures ok ==> offset == AlignDown(offset0, align) && offset + |local| == offset0 + |qiov|
      ensures ok ==> Pads(offset0, qiov, offset, local)
      ensures ok ==> req == if offset0 % align != 0 then Marked(NewRequest(offset0, |qiov|, true), align)
                            else NewRequest(offset0, |qiov|, true)
    {
      ok, offset, local, req := true, offset0, qiov, NewRequest(offset0, |qiov|, true);
      if offset % align != 0 {
        req := Marked(req, align);
        AlignDownFacts(offset, align);
        SectorAligned(AlignDown(offset, align), align);
        var headBuf;
        ok, headBuf := AlignedPreadv(AlignDown(offset, align), stale, fault);
        if !ok {
          return;
        }
        local := headBuf[..offset % align] + qiov;
        offset := AlignDown(offset, align);
      }
    }

    /** The tail half of the read-modify-write cycle. */
    method PadTail(ghost offset0: nat, ghost qiov: seq<Byte>, offset: nat, local0: seq<Byte>, req0: Request,
                   stale: seq<Byte>, fault: ReadFault)
      returns (ok: bool, local: seq<Byte>, req: Request)
      requires Valid() && |stale| == align && Pads(offset0, qiov, offset, local0)
      requires offset + |local0| == offset0 + |qiov|
      ensures ok == !((offset + |local0|) % align != 0 && ReadFails(AlignDown(offset + |local0|, align), fault))
      ensures ok ==> offset + |local| == AlignUp(offset0 + |qiov|, align) && Pads(offset0, qiov, offset, local)
      ensures ok ==> req == if (offset + |local0|) % align != 0 then Marked(req0, align) else req0
    {
      ok, local, req := true, local0, req0;
      AlignFacts(offset + |local|, align);
      if (offset + |local|) % align != 0 {
        req := Marked(req, align);
        var last := AlignDown(offset + |local|, align);
        SectorAligned(last, align);
        var tailBuf;
        ok, tailBuf := AlignedPreadv(last, stale, fault);
        if !ok {
          return;
        }
        var tailBytes := (offset + |local|) % align;
        local := local + tailBuf[tailBytes..];
      }
    }

    /** The blocks that the request does not fill can be read. */
    predicate PadsRead(offset0: nat, bytes: nat, head: ReadFault, tail: ReadFault)
      requires Valid()
      reads this
    {
      && !(offset0 % align != 0 && ReadFails(AlignDown(offset0, align), head))
      && !((offset0 + bytes) % align != 0 && ReadFails(AlignDown(offset0 + bytes, align), tail))
    }

    /** Both halves of the read-modify-write cycle. */
    method Pad(offset0: nat, qiov: seq<Byte>, stale: seq<Byte>, head: ReadFault, tail: ReadFault)
      returns (ok: bool, offset: nat, local: seq<Byte>, req: Request)
      requires Valid() && |stale| == align
      ensures ok == PadsRead(offset0, |qiov|, head, tail)
      ensures ok ==> offset == AlignDown(offset0, align) && local == Padded(offset0, qiov)
      ensures ok ==> req.overlapOffset <= offset && offset + |local| <= req.overlapOffset + req.overlapBytes
    {
      ok, offset, local, req := PadHead(offset0, qiov, stale, head);
      if !ok {
        return;
      }
      ok, local, req := PadTail(offset0, qiov, offset, local, req, stale, tail);
      if !ok {
        return;
      }
      PadsUnique(offset0, qiov, offset, local, Padded(offset0, qiov));
      TrackedRange(offset0, |qiov|, align);
    }

    /** The part of `bdrv_co_do_pwritev` under the tracked request. */
    method PaddedWrite(offset0: nat, qiov: seq<Byte>, stale: seq<Byte>, head: ReadFault, tail: ReadFault,
                       fault: WriteFault)
      returns (ok: bool)
      requires Valid() && |stale| == align && |fault.left| % SECTOR == 0
      modifies this`disk
      ensures ok <==>
        && old(PadsRead(offset0, |qiov|, head, tail))
        && !old(WriteFails(AlignDown(offset0, align), Padded(offset0, qiov), fault))
      ensures !old(PadsRead(offset0, |qiov|, head, tail)) || fault.notified < 0 ==> disk == old(disk)
      ensures Valid() && Confined(old(disk), disk, AlignDown(offset0, align), AlignUp(offset0 + |qiov|, align))
      ensures (
        && old(PadsRead(offset0, |qiov|, head, tail))
        && !old(NotWritten(AlignDown(offset0, align), Padded(offset0, qiov), fault))) ==>
          disk == old(Stored(growable, disk, AlignDown(offset0, align), Padded(offset0, qiov)))
    {
      var offset, local, req;
      ok, offset, local, req := Pad(offset0, qiov, stale, head, tail);
      if !ok {
        return;
      }
      RoundedInside(offset0, |qiov|, align, |disk|);
      ok := AlignedPwritev(req, offset, local, fault);
    }

    /** The request is checked and its blocks can be read, so that it comes to the write. */
    predicate Reaches(offset0: nat, bytes: nat, head: ReadFault, tail: ReadFault)
      requires Valid()
      reads this
    {
      hasDriver && !readOnly && RequestOk(offset0, bytes) && PadsRead(offset0, bytes, head, tail)
    }

    /** `bdrv_co_do_pwritev` of a data vector. `head`, `tail` and `fault` say what fails in the reads of
        the read-modify-write cycle and in the write; `stale` is what fresh buffers hold. */
    method Pwritev(offset0: nat, qiov: seq<Byte>, stale: seq<Byte>, head: ReadFault, tail: ReadFault, fault: WriteFault)
      returns (ret: Outcome)
      requires Valid() && |stale| == align && |fault.left| % SECTOR == 0
      modifies this`disk
      ensures !hasDriver ==> ret == NoMedium
      ensures hasDriver && readOnly ==> ret == ReadOnly
      ensures hasDriver && !readOnly && ret != Ok ==> ret == IoError
      ensures ret == Ok <==>
        && old(Reaches(offset0, |qiov|, head, tail))
        && !old(WriteFails(AlignDown(offset0, align), Padded(offset0, qiov), fault))
      ensures !old(Reaches(offset0, |qiov|, head, tail)) || fault.notified < 0 ==> disk == old(disk)
      ensures Valid() && Confined(old(disk), disk, AlignDown(offset0, align), AlignUp(offset0 + |qiov|, align))
      ensures (
        && old(Reaches(offset0, |qiov|, head, tail))
        && !old(NotWritten(AlignDown(offset0, align), Padded(offset0, qiov), fault))) ==>
          Wrote(old(disk), disk, offset0, qiov)
    {
      if !hasDriver {
        return NoMedium;
      }
      if readOnly {
        return ReadOnly;
      }
      var ok := CheckByteRequest(offset0, |qiov|);
      if !ok {
        return IoError;
      }
      PadsExact(offset0, qiov, AlignDown(offset0, align), Padded(offset0, qiov));
      ok := PaddedWrite(offset0, qiov, stale, head, tail, fault);
      ret := if ok then Ok else IoError;
    }

    /** `bdrv_co_do_preadv` without copy-on-read: pad outward, read whole blocks, keep the middle. */
    method Preadv(offset0: nat, bytes0: nat, stale: seq<Byte>, fault: ReadFault) returns (ret: Outcome, data: seq<Byte>)
      requires Valid() && |stale| == AlignUp(offset0 + bytes0, align) - AlignDown(offset0, align)
      ensures !hasDriver ==> ret == NoMedium
      ensures hasDriver ==>
        ret == if RequestOk(offset0, bytes0) && !ReadFails(AlignDown(offset0, align), fault)
               then Ok else IoError
      ensures ret == Ok ==> |data| == bytes0 && forall i :: 0 <= i < bytes0 ==> data[i] == At(offset0 + i)
      ensures ret == Ok ==> forall i :: 0 <= i < bytes0 && offset0 + i < |disk| ==> data[i] == disk[offset0 + i]
      ensures ret == Ok && zeroBeyondEof && growable ==>
        forall i :: 0 <= i < bytes0 && |disk| <= offset0 + i ==> data[i] == 0
    {
      data := [];
      if !hasDriver {
        return NoMedium, data;
      }
      var ok := CheckByteRequest(offset0, bytes0);
      if !ok {
        return IoError, data;
      }
      var offset, skip := offset0, 0;
      AlignFacts(offset0 + bytes0, align);
      AlignDownFacts(offset0, align);
      if offset % align != 0 {
        skip := offset % align;
        offset := AlignDown(offset, align);
      }
      RoundedInside(offset0, bytes0, align, |disk|);
      var buf;
      ok, buf := AlignedPreadv(offset, stale, fault);
      if !ok {
        return IoError, data;
      }
      data := buf[skip..skip + bytes0];
      ret := Ok;
    }
  }

  /** The write replaced exactly its bytes: everything else that was on the disk is still there. */
  ghost predicate Exact(before: seq<Byte>, after: seq<Byte>, offset: nat, data: seq<Byte>) {
    && |before| <= |after| && (data == [] || offset + |data| <= |after|)
    && (forall i :: offset <= i < offset + |data| ==> after[i] == data[i - offset])
    && (forall i :: 0 <= i < |before| && !(offset <= i < offset + |data|) ==> after[i] == before[i])
  }

  /** The tracked request covers the padded write, whichever halves were needed. */
  lemma TrackedRange(offset: nat, bytes: nat, align: nat)
    requires align > 0
    ensures var r0 := NewRequest(offset, bytes, true);
      var r1 := if offset % align != 0 then Marked(r0, align) else r0;
      var r2 := if (offset + bytes) % align != 0 then Marked(r1, align) else r1;
      && r2.overlapOffset <= AlignDown(offset, align)
      && AlignUp(offset + bytes, align) <= r2.overlapOffset + r2.overlapBytes
  {
    AlignFacts(offset, align);
    AlignFacts(offset + bytes, align);
    MarkedRange(offset, bytes, true, align);
    MarkIdempotent(NewRequest(offset, bytes, true), align);
  }

  lemma MultiplesApart(a: nat, b: nat, d: nat)
    requires d > 0 && a % d == 0 && b % d == 0 && a < b + d
    ensures a <= b
  {
    var m := MultipleOf(a, d);
    var n := MultipleOf(b, d);
    if m > n {
      MulMonotone(n, m, d);
    }
  }

  lemma ToNextMultiple(n: nat, d: nat)
    ensures d > 0 ==> (n + (d - n % d)) % d == 0 && (n - n % d) % d == 0
  {
    if d > 0 {
      AlignDownFacts(n, d);
      var q := MultipleOf(n - n % d, d);
      DivOfMultiple(q + 1, d, 0);
    }
  }

  lemma WholeSectors(n: nat)
    requires n % SECTOR == 0
    ensures (n + SECTOR - 1) / SECTOR == n / SECTOR && n / SECTOR * SECTOR == n
  {
  }

  lemma DifferenceAligned(a: nat, b: nat)
    requires a <= b && a % SECTOR == 0 && b % SECTOR == 0
    ensures (b - a) % SECTOR == 0
  {
  }

  /** Rounding outward stays sector aligned, and inside a disk of whole blocks. */
  lemma RoundedInside(offset: nat, bytes: nat, align: nat, len: nat)
    requires align > 0 && align % SECTOR == 0
    ensures var lo, hi := AlignDown(offset, align), AlignUp(offset + bytes, align);
      lo <= hi && lo % SECTOR == 0 && hi % SECTOR == 0 && (hi - lo) % SECTOR == 0
    ensures len % align == 0 && offset + bytes <= len ==> AlignUp(offset + bytes, align) <= len
  {
    var lo, hi := AlignDown(offset, align), AlignUp(offset + bytes, align);
    AlignFacts(offset, align);
    AlignFacts(offset + bytes, align);
    SectorAligned(lo, align);
    SectorAligned(hi, align);
    DifferenceAligned(lo, hi);
    if len % align == 0 && offset + bytes <= len {
      MultiplesApart(hi, len, align);
    }
  }

  lemma SectorAligned(n: nat, align: nat)
    requires align > 0 && align % SECTOR == 0 && n % align == 0
    ensures n % SECTOR == 0
  {
    var k, m := n / align, align / SECTOR;
    assert n == k * align && align == m * SECTOR;
    MulAssoc(k, m, SECTOR);
    DivOfMultiple(k * m, SECTOR, 0);
  }

  lemma NextChunk(grows: bool, disk: seq<Byte>, sector: nat, next: nat, num: nat)
    requires sector <= next
    ensures
      Stored(grows, Stored(grows, disk, sector * SECTOR, Zeros((next - sector) * SECTOR)),
             next * SECTOR, Zeros(num * SECTOR)) ==
      Stored(grows, disk, sector * SECTOR, Zeros((next + num - sector) * SECTOR))
  {
    var a, b := (next - sector) * SECTOR, num * SECTOR;
    StoredTwice(grows, disk, sector * SECTOR, Zeros(a), Zeros(b));
    assert Zeros(a) + Zeros(b) == Zeros(a + b);
  }

  lemma TornChunk(grows: bool, disk: seq<Byte>, sector: nat, next: nat, torn: seq<Byte>, end: nat)
    requires |disk| % SECTOR == 0 && |torn| % SECTOR == 0 && sector <= next && next * SECTOR + |torn| <= end * SECTOR
    ensures Confined(disk,
                     Stored(grows, Stored(grows, disk, sector * SECTOR, Zeros((next - sector) * SECTOR)),
                            next * SECTOR, torn),
                     sector * SECTOR, end * SECTOR)
  {
    var done := Zeros((next - sector) * SECTOR);
    StoredTwice(grows, disk, sector * SECTOR, done, torn);
    StoredConfined(grows, disk, sector * SECTOR, done + torn, end * SECTOR);
  }
}
