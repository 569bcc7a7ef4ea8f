/** The flattened format of a dump: a header, runs of bytes with their offset and size, and an end mark. */
module Flattened {
  import opened Values
  import opened BigEndian
  import opened FileImage

  const MAX_SIZE_MDF_HEADER: nat := 4096
  const TYPE_FLAT_HEADER: nat := 1
  const VERSION_FLAT_HEADER: nat := 1

  /** -1 as an unsigned number of 64 bits. */
  const END_FLAG: nat := WORD_LIMIT - 1

  /** `write_start_flat_header`: the signature "makedumpfile", type and version. */
  function StartHeader(): (b: Bytes)
    ensures |b| == MAX_SIZE_MDF_HEADER
  {
    [109, 97, 107, 101, 100, 117, 109, 112, 102, 105, 108, 101, 0, 0, 0, 0] +
    Put(TYPE_FLAT_HEADER, 8) + Put(VERSION_FLAT_HEADER, 8) + seq(MAX_SIZE_MDF_HEADER - 32, _ => 0)
  }

  /** `write_end_flat_header`. */
  function EndHeader(): (b: Bytes)
    ensures |b| == 16
  {
    Put(END_FLAG, 8) + Put(END_FLAG, 8)
  }

  /** `write_buffer`: offset, size and data. */
  function RunBytes(r: Run): (b: Bytes)
    ensures |b| == 16 + |r.data|
  {
    Put(r.at, 8) + Put(|r.data|, 8) + r.data
  }

  function RunsBytes(runs: seq<Run>, k: nat): Bytes
    requires k <= |runs|
    decreases |runs| - k
  {
    if k == |runs| then EndHeader() else RunBytes(runs[k]) + RunsBytes(runs, k + 1)
  }

  /** The whole stream. */
  function FlatFile(runs: seq<Run>): Bytes {
    StartHeader() + RunsBytes(runs, 0)
  }

  /** The file that a stream, from position pos on, makes of what its runs before made. */
  function Rearranged(stream: Bytes, pos: nat, file: map<nat, Byte>): Option<map<nat, Byte>>
    decreases |stream| - pos
  {
    if |stream| < pos + 16 then None else
      var at, n := Value(stream[pos..pos + 8]), Value(stream[pos + 8..pos + 16]);
      if at == n == END_FLAG then Some(file)
      else if |stream| < pos + 16 + n then None
      else Rearranged(stream, pos + 16 + n, Laid(file, at, stream[pos + 16..pos + 16 + n]))
  }

  function Unflatten(stream: Bytes): Option<map<nat, Byte>> {
    if |stream| < MAX_SIZE_MDF_HEADER || stream[..MAX_SIZE_MDF_HEADER] != StartHeader() then None
    else Rearranged(stream, MAX_SIZE_MDF_HEADER, map[])
  }

  /** The offset and the size fit their words and are not the end mark. */
  predicate Fits(r: Run) {
    r.at < END_FLAG && |r.data| < WORD_LIMIT
  }

  /** One run is read back. */
  lemma RunRead(stream: Bytes, pos: nat, r: Run, file: map<nat, Byte>)
    requires Fits(r) && Piece(stream, pos, RunBytes(r))
    ensures Rearranged(stream, pos, file) == Rearranged(stream, pos + 16 + |r.data|, Laid(file, r.at, r.data))
  {
    Limits();
    ValueOfPut(r.at, 8);
    ValueOfPut(|r.data|, 8);
    PieceSplit(stream, pos, Put(r.at, 8) + Put(|r.data|, 8), r.data);
    PieceSplit(stream, pos, Put(r.at, 8), Put(|r.data|, 8));
  }

  lemma EndRead(stream: Bytes, pos: nat, file: map<nat, Byte>)
    requires Piece(stream, pos, EndHeader())
    ensures Rearranged(stream, pos, file) == Some(file)
  {
    Limits();
    ValueOfPut(END_FLAG, 8);
    PieceSplit(stream, pos, Put(END_FLAG, 8), Put(END_FLAG, 8));
  }

  lemma {:induction false} RunsRead(stream: Bytes, pos: nat, runs: seq<Run>, k: nat)
    requires k <= |runs| && Piece(stream, pos, RunsBytes(runs, k)) && forall i :: 0 <= i < |runs| ==> Fits(runs[i])
    ensures Rearranged(stream, pos, Replay(runs[..k])) == Some(Replay(runs))
    decreases |runs| - k
  {
    if k == |runs| {
      assert runs[..k] == runs;
      EndRead(stream, pos, Replay(runs));
    } else {
      var r := runs[k];
      PieceSplit(stream, pos, RunBytes(r), RunsBytes(runs, k + 1));
      RunRead(stream, pos, r, Replay(runs[..k]));
      assert runs[..k + 1] == runs[..k] + [r];
      ReplayNext(runs[..k], r);
      RunsRead(stream, pos + 16 + |r.data|, runs, k + 1);
    }
  }

  /** Rearranging a stream gives the file that its runs make. */
  lemma FlatRoundTrip(runs: seq<Run>)
    requires forall i :: 0 <= i < |runs| ==> Fits(runs[i])
    ensures Unflatten(FlatFile(runs)) == Some(Replay(runs))
  {
    var stream := FlatFile(runs);
    assert stream[..MAX_SIZE_MDF_HEADER] == StartHeader();
    PieceEnd(StartHeader(), RunsBytes(runs, 0));
    assert runs[..0] == [];
    RunsRead(stream, MAX_SIZE_MDF_HEADER, runs, 0);
  }
}
