/** The two programs at the ends of a RAM stream: the saver, which writes one, and the loader. */
module RamPeers {
  import opened Values
  import opened BigEndian
  import opened RamStream
  import Xbzrle

  lemma RecordMore(stream: Bytes, more: Bytes, pos: nat, src: Blocks, last: Option<nat>, r: Record)
    requires r.block < |src| && |src[r.block].id| < 256 && RecordAt(stream, pos, src, last, r)
    ensures RecordAt(stream + more, pos, src, last, r)
  {
    var cont := last == Some(r.block);
    var head, body := Put(Header(r.offset, cont, FlagOf(r.body)), 8), BodyBytes(r.body);
    var id := if cont then [] else IdBytes(src[r.block].id);
    PiecesMore(stream, more, pos, head, id, body);
  }

  lemma NthRecordMore(stream: Bytes, more: Bytes, pos: nat, src: Blocks, last: Option<nat>, recs: Records, k: nat)
    requires k < |recs| && NamesOk(src) && RecordsOk(src, recs) && NthRecordAt(stream, pos, src, last, recs, k)
    ensures NthRecordAt(stream + more, pos, src, last, recs, k)
  {
    RecordMore(stream, more, pos + RecordPos(src, last, recs, k), src, Before(last, recs, k), recs[k]);
  }

  lemma RecordsMore(stream: Bytes, more: Bytes, pos: nat, src: Blocks, last: Option<nat>, recs: Records, n: nat)
    requires n <= |recs| && NamesOk(src) && RecordsOk(src, recs) && FirstRecordsAt(stream, pos, src, last, recs, n)
    ensures FirstRecordsAt(stream + more, pos, src, last, recs, n)
  {
    forall k | 0 <= k < n ensures NthRecordAt(stream + more, pos, src, last, recs, k) {
      NthRecordMore(stream, more, pos, src, last, recs, k);
    }
  }

  /** The bytes of one record. */
  function RecordBytes(src: Blocks, last: Option<nat>, r: Record): (b: Bytes)
    requires r.block < |src| && |src[r.block].id| < 256
    ensures |b| == RecordLength(src, last, r)
  {
    var cont := last == Some(r.block);
    Put(Header(r.offset, cont, FlagOf(r.body)), 8) + (if cont then [] else IdBytes(src[r.block].id)) + BodyBytes(r.body)
  }

  lemma RecordAppended(stream: Bytes, more: Bytes, pos: nat, src: Blocks, last: Option<nat>, r: Record)
    requires r.block < |src| && |src[r.block].id| < 256 && more == RecordBytes(src, last, r) && pos == |stream|
    ensures RecordAt(stream + more, pos, src, last, r)
  {
    var cont := last == Some(r.block);
    var head, body := Put(Header(r.offset, cont, FlagOf(r.body)), 8), BodyBytes(r.body);
    var id := if cont then [] else IdBytes(src[r.block].id);
    PiecesEnd(stream, head, id, body);
  }

  lemma NthAppended(out: Bytes, start: nat, src: Blocks, last: Option<nat>, recs: Records, k: nat, more: Bytes)
    requires k < |recs| && NamesOk(src) && RecordsOk(src, recs) && |out| == start + RecordPos(src, last, recs, k)
    requires more == RecordBytes(src, Before(last, recs, k), recs[k])
    ensures NthRecordAt(out + more, start, src, last, recs, k)
  {
    RecordAppended(out, more, start + RecordPos(src, last, recs, k), src, Before(last, recs, k), recs[k]);
  }

  /** One more record after the first k. */
  lemma NextRecord(out: Bytes, start: nat, src: Blocks, last: Option<nat>, recs: Records, k: nat, more: Bytes)
    requires k < |recs| && NamesOk(src) && RecordsOk(src, recs) && FirstRecordsAt(out, start, src, last, recs, k)
    requires |out| == start + RecordPos(src, last, recs, k) && more == RecordBytes(src, Before(last, recs, k), recs[k])
    ensures FirstRecordsAt(out + more, start, src, last, recs, k + 1)
    ensures |out + more| == start + RecordPos(src, last, recs, k + 1)
  {
    RecordsMore(out, more, start, src, last, recs, k);
    NthAppended(out, start, src, last, recs, k, more);
  }

  lemma RoundEnded(out: Bytes, start: nat, src: Blocks, last: Option<nat>, recs: Records)
    requires NamesOk(src) && RecordsOk(src, recs) && FirstRecordsAt(out, start, src, last, recs, |recs|)
    requires |out| == start + RecordPos(src, last, recs, |recs|)
    ensures SectionAt(out + Put(EOS, 8), start, src, last, recs)
  {
    RecordsMore(out, Put(EOS, 8), start, src, last, recs, |recs|);
    PieceEnd(out, Put(EOS, 8));
  }

  lemma SectionMore(stream: Bytes, more: Bytes, pos: nat, src: Blocks, last: Option<nat>, recs: Records)
    requires NamesOk(src) && RecordsOk(src, recs) && SectionAt(stream, pos, src, last, recs)
    ensures SectionAt(stream + more, pos, src, last, recs)
  {
    RecordsMore(stream, more, pos, src, last, recs, |recs|);
    PieceMore(stream, more, pos + RecordPos(src, last, recs, |recs|), Put(EOS, 8));
  }

  lemma EntryMore(stream: Bytes, more: Bytes, pos: nat, src: Blocks, k: nat)
    requires k < |src| && |src[k].id| < 256 && NthEntryAt(stream, pos, src, k)
    ensures NthEntryAt(stream + more, pos, src, k)
  {
    var at := pos + EntryPos(src, k);
    PieceMore(stream, more, at, IdBytes(src[k].id));
    PieceMore(stream, more, at + 1 + |src[k].id|, Put(src[k].length, 8));
  }

  lemma SetupMore(stream: Bytes, more: Bytes, src: Blocks)
    requires BlocksOk(src) && SetupAt(stream, 0, src)
    ensures SetupAt(stream + more, 0, src)
  {
    PieceMore(stream, more, 0, Put(Header(Left(src, 0), false, MEM_SIZE), 8));
    forall k | 0 <= k < |src| ensures NthEntryAt(stream + more, 8, src, k) {
      assert NthEntryAt(stream, 8, src, k);
      EntryMore(stream, more, 8, src, k);
    }
    PieceMore(stream, more, 8 + EntryPos(src, |src|), Put(EOS, 8));
  }

  lemma {:induction false} SamePrefix(src: Blocks, rounds: seq<Records>, recs: Records, k: nat)
    requires RoundsOk(src, rounds) && RecordsOk(src, recs) && k <= |rounds|
    ensures LastAt(rounds + [recs], k) == LastAt(rounds, k)
    ensures RoundPos(src, rounds + [recs], k) == RoundPos(src, rounds, k)
  {
    if k > 0 {
      SamePrefix(src, rounds, recs, k - 1);
      assert (rounds + [recs])[k - 1] == rounds[k - 1];
    }
  }

  lemma RoundMore(stream: Bytes, more: Bytes, src: Blocks, rounds: seq<Records>, recs: Records, k: nat)
    requires NamesOk(src) && RoundsOk(src, rounds) && RecordsOk(src, recs) && k < |rounds|
    requires NthRoundAt(stream, src, rounds, k)
    ensures NthRoundAt(stream + more, src, rounds + [recs], k)
  {
    SamePrefix(src, rounds, recs, k);
    SectionMore(stream, more, RoundPos(src, rounds, k), src, LastAt(rounds, k), rounds[k]);
  }

  lemma LastRound(stream: Bytes, src: Blocks, rounds: seq<Records>, recs: Records)
    requires NamesOk(src) && RoundsOk(src, rounds) && RecordsOk(src, recs)
    requires SectionAt(stream, RoundPos(src, rounds, |rounds|), src, LastAt(rounds, |rounds|), recs)
    ensures NthRoundAt(stream, src, rounds + [recs], |rounds|)
  {
    SamePrefix(src, rounds, recs, |rounds|);
  }

  lemma RoundsOkMore(src: Blocks, rounds: seq<Records>, recs: Records)
    requires RoundsOk(src, rounds) && RecordsOk(src, recs)
    ensures RoundsOk(src, rounds + [recs])
  {
  }

  lemma NthRoundMore(stream: Bytes, section: Bytes, src: Blocks, rounds: seq<Records>, recs: Records, k: nat)
    requires NamesOk(src) && RoundsOk(src, rounds) && RecordsOk(src, recs) && k <= |rounds|
    requires k < |rounds| ==> NthRoundAt(stream, src, rounds, k)
    requires SectionAt(stream + section, RoundPos(src, rounds, |rounds|), src, LastAt(rounds, |rounds|), recs)
    ensures RoundsOk(src, rounds + [recs]) && NthRoundAt(stream + section, src, rounds + [recs], k)
  {
    RoundsOkMore(src, rounds, recs);
    if k < |rounds| {
      RoundMore(stream, section, src, rounds, recs, k);
    } else {
      LastRound(stream + section, src, rounds, recs);
    }
  }

  /** A stream followed by the section of one more round is the stream of one more round. */
  lemma StreamMore(stream: Bytes, section: Bytes, src: Blocks, rounds: seq<Records>, recs: Records)
    requires BlocksOk(src) && RoundsOk(src, rounds) && RecordsOk(src, recs) && StreamAt(stream, src, rounds)
    requires SectionAt(stream + section, RoundPos(src, rounds, |rounds|), src, LastAt(rounds, |rounds|), recs)
    ensures RoundsOk(src, rounds + [recs]) && StreamAt(stream + section, src, rounds + [recs])
  {
    SetupMore(stream, section, src);
    RoundsOkMore(src, rounds, recs);
    forall k | 0 <= k <= |rounds| ensures NthRoundAt(stream + section, src, rounds + [recs], k) {
      assert k < |rounds| ==> NthRoundAt(stream, src, rounds, k);
      NthRoundMore(stream, section, src, rounds, recs, k);
    }
  }

  /** The saver: its stream, `last_sent_block`, and, to state what was sent, the rounds so far. */
  class RamSaver {
    const src: Blocks
    var last: Option<nat>
    var out: Bytes
    ghost var rounds: seq<Records>

    ghost predicate Valid()
      reads this
    {
      && BlocksOk(src) && RoundsOk(src, rounds) && StreamAt(out, src, rounds)
      && last == LastAt(rounds, |rounds|) && |out| == RoundPos(src, rounds, |rounds|)
    }

    /** The stream part of `ram_save_setup`. */
    constructor (blocks: Blocks)
      requires BlocksOk(blocks)
      ensures Valid() && src == blocks && rounds == [] && last == None
    {
      var bytes := SetupStream(blocks);
      src, last, out, rounds := blocks, None, bytes, [];
    }

    /** A round: the pages sent, each with the block's name unless the page before was of the same
        block, and the end mark. */
    method SaveRound(recs: Records)
      requires Valid() && RecordsOk(src, recs)
      modifies this
      ensures Valid() && rounds == old(rounds) + [recs] && old(out) <= out
    {
      var out', sent := RoundStream(src, last, recs, out);
      assert out' == out + out'[|out|..];
      StreamMore(out, out'[|out|..], src, rounds, recs);
      SamePrefix(src, rounds, recs, |rounds|);
      out, last := out', sent;
      rounds := rounds + [recs];
    }
  }

  /** The total, the block list and the end mark. */
  method SetupStream(src: Blocks) returns (out: Bytes)
    requires BlocksOk(src)
    ensures SetupAt(out, 0, src) && |out| == SetupLength(src)
  {
    var total := 0;
    for k := |src| downto 0
      invariant total == Left(src, k)
    {
      total := total + src[k].length;
    }
    var head := Put(Header(total, false, MEM_SIZE), 8);
    out := head;
    for k := 0 to |src|
      invariant |out| == 8 + EntryPos(src, k) && Piece(out, 0, head)
      invariant forall i :: 0 <= i < k ==> NthEntryAt(out, 8, src, i)
    {
      out := AppendEntry(src, k, out, head);
    }
    ghost var before := out;
    out := out + Put(EOS, 8);
    ListEnded(before, src, head);
  }

  lemma ListEnded(out: Bytes, src: Blocks, head: Bytes)
    requires BlocksOk(src) && head == Put(Header(Left(src, 0), false, MEM_SIZE), 8)
    requires |out| == 8 + EntryPos(src, |src|) && Piece(out, 0, head) && ListAt(out, 8, src)
    ensures SetupAt(out + Put(EOS, 8), 0, src)
  {
    var more := Put(EOS, 8);
    PieceMore(out, more, 0, head);
    PieceEnd(out, more);
    forall k | 0 <= k < |src| ensures NthEntryAt(out + more, 8, src, k) {
      assert NthEntryAt(out, 8, src, k);
      EntryMore(out, more, 8, src, k);
    }
  }

  method AppendEntry(src: Blocks, k: nat, out: Bytes, head: Bytes) returns (out': Bytes)
    requires BlocksOk(src) && k < |src| && |out| == 8 + EntryPos(src, k) && Piece(out, 0, head)
    requires forall i :: 0 <= i < k ==> NthEntryAt(out, 8, src, i)
    ensures |out'| == 8 + EntryPos(src, k + 1) && Piece(out', 0, head)
    ensures forall i :: 0 <= i <= k ==> NthEntryAt(out', 8, src, i)
  {
    var name, length := IdBytes(src[k].id), Put(src[k].length, 8);
    out' := out + (name + length);
    PieceMore(out, name + length, 0, head);
    PieceEnd(out, name + length);
    PieceSplit(out', |out|, name, length);
    forall i | 0 <= i <= k ensures NthEntryAt(out', 8, src, i) {
      if i < k {
        EntryMore(out, name + length, 8, src, i);
      }
    }
  }

  /** Record k after the ones before it. */
  method AppendRecord(out: Bytes, ghost start: nat, src: Blocks, ghost last: Option<nat>, recs: Records, k: nat,
                      sent: Option<nat>) returns (out': Bytes)
    requires k < |recs| && NamesOk(src) && RecordsOk(src, recs) && FirstRecordsAt(out, start, src, last, recs, k)
    requires |out| == start + RecordPos(src, last, recs, k) && sent == Before(last, recs, k)
    ensures out <= out' && FirstRecordsAt(out', start, src, last, recs, k + 1)
    ensures |out'| == start + RecordPos(src, last, recs, k + 1)
  {
    var more := RecordBytes(src, sent, recs[k]);
    NextRecord(out, start, src, last, recs, k, more);
    out' := out + more;
  }

  /** The stream with one more round, and `last_sent_block` after it. */
  method RoundStream(src: Blocks, last: Option<nat>, recs: Records, before: Bytes)
    returns (out: Bytes, sent: Option<nat>)
    requires NamesOk(src) && RecordsOk(src, recs)
    ensures before <= out && SectionAt(out, |before|, src, last, recs)
    ensures |out| == |before| + SectionLength(src, last, recs) && sent == Before(last, recs, |recs|)
  {
    out, sent := before, last;
    for k := 0 to |recs|
      invariant sent == Before(last, recs, k) && before <= out
      invariant FirstRecordsAt(out, |before|, src, last, recs, k)
      invariant |out| == |before| + RecordPos(src, last, recs, k)
    {
      out := AppendRecord(out, |before|, src, last, recs, k, sent);
      sent := Some(recs[k].block);
    }
    RoundEnded(out, |before|, src, last, recs);
    out := out + Put(EOS, 8);
  }

  // ---- The loader ----

  /** The loader's memory: the contents of each page, by the place of its block and its offset there. */
  type Ram = map<(nat, nat), Bytes>

  /** What a page record does to the memory; None is a delta that does not decode, or a page that is
      not there. */
  function CarryOut(mem: Ram, r: Record): Option<Ram> {
    var key := (r.block, r.offset);
    if key !in mem then None else
      match r.body
      case Fill(ch) => Some(mem[key := seq(PAGE_SIZE, _ => ch)])
      case Full(d) => Some(mem[key := d])
      case Delta(d) =>
        match Xbzrle.Decode(d, mem[key])
        case None => None
        case Some(c) => Some(mem[key := c])
  }

  /** The loader: its memory and the block it remembers. */
  class RamLoader {
    var cur: Option<nat>
    var mem: Ram

    constructor (mem: Ram)
      ensures cur == None && this.mem == mem
    {
      cur, this.mem := None, mem;
    }

    /** `ram_load`, from position pos of the stream on. */
    method RamLoad(blocks: Blocks, stream: Bytes, pos: nat) returns (ok: bool, next: nat)
      modifies this
      ensures Outcome(ok, mem, cur, next) == Load(Reader(blocks, stream), |stream|, old(cur), pos, old(mem), CarryOut)
    {
      ok, next := LoadLoop(Reader(blocks, stream), |stream|, pos);
    }

    method LoadLoop(item: ItemReader, size: nat, pos: nat) returns (ok: bool, next: nat)
      requires Advances(item, size)
      modifies this
      ensures Outcome(ok, mem, cur, next) == Load(item, size, old(cur), pos, old(mem), CarryOut)
    {
      next := pos;
      while true
        invariant Load(item, size, cur, next, mem, CarryOut) == Load(item, size, old(cur), pos, old(mem), CarryOut)
        decreases size - next
      {
        match item(cur, next) {
          case Bad => return false, next;
          case End(after) => return true, after;
          case Listed(after) => next := after;
          case Stored(r, after) =>
            var mem' := CarryOut(mem, r);
            if mem'.None? {
              return false, next;
            }
            cur, mem, next := Some(r.block), mem'.value, after;
        }
      }
    }

    /** The calls for a whole stream of n sections, up to the first that fails. */
    method LoadStream(blocks: Blocks, stream: Bytes, n: nat) returns (ok: bool, next: nat)
      modifies this
      ensures Outcome(ok, mem, cur, next) == Calls(Reader(blocks, stream), |stream|, old(cur), 0, old(mem), n, CarryOut)
    {
      ok, next := CallLoop(Reader(blocks, stream), |stream|, n);
    }

    method CallLoop(item: ItemReader, size: nat, n: nat) returns (ok: bool, next: nat)
      requires Advances(item, size)
      modifies this
      ensures Outcome(ok, mem, cur, next) == Calls(item, size, old(cur), 0, old(mem), n, CarryOut)
    {
      ok, next := true, 0;
      var left: nat := n;
      while ok && left > 0
        invariant if ok then Calls(item, size, cur, next, mem, left, CarryOut) ==
          Calls(item, size, old(cur), 0, old(mem), n, CarryOut)
                  else Outcome(ok, mem, cur, next) == Calls(item, size, old(cur), 0, old(mem), n, CarryOut)
        decreases left
      {
        ok, next := LoadLoop(item, size, next);
        left := left - 1;
      }
    }
  }
}
