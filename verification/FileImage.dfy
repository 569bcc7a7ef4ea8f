/** A file as the bytes at its positions, for writes at given offsets, and the bits of a byte. */
module FileImage {
  import opened Values

  /** The data stand in the file from position `at` on. */
  ghost predicate Holds(file: map<nat, Byte>, at: nat, data: seq<Byte>) {
    forall p :: at <= p < at + |data| ==> p in file && file[p] == data[p - at]
  }

  /** The new file is the old one with the data written from `at` on. */
  ghost predicate WrittenAt(file: map<nat, Byte>, file': map<nat, Byte>, at: nat, data: seq<Byte>) {
    Holds(file', at, data) && SameOutside(file, file', at, at + |data|)
  }

  /** Nothing changed in the file outside [from, to). */
  ghost predicate SameOutside(file: map<nat, Byte>, file': map<nat, Byte>, from: nat, to: nat) {
    forall p :: p in file && !(from <= p < to) ==> p in file' && file'[p] == file[p]
  }

  /** Nothing changed in the file before `to`. */
  ghost predicate SameBefore(file: map<nat, Byte>, file': map<nat, Byte>, to: nat) {
    forall p :: p in file && p < to ==> p in file' && file'[p] == file[p]
  }

  /** What one write to the dump puts in the file. */
  datatype Run = Run(at: nat, data: Bytes)

  function Laid(file: map<nat, Byte>, at: nat, data: Bytes): map<nat, Byte> {
    var n := |data|;
    if n == 0 then file else Laid(file, at, data[..n - 1])[at + n - 1 := data[n - 1]]
  }

  lemma {:induction false} LaidWritten(file: map<nat, Byte>, at: nat, data: Bytes)
    ensures WrittenAt(file, Laid(file, at, data), at, data)
  {
    if data != [] {
      LaidWritten(file, at, data[..|data| - 1]);
    }
  }

  /** The file that the runs, in order, make. */
  function Replay(runs: seq<Run>): map<nat, Byte> {
    if runs == [] then map[] else
      var r := runs[|runs| - 1];
      Laid(Replay(runs[..|runs| - 1]), r.at, r.data)
  }

  lemma ReplayNext(runs: seq<Run>, r: Run)
    ensures Replay(runs + [r]) == Laid(Replay(runs), r.at, r.data)
  {
    assert (runs + [r])[..|runs|] == runs;
  }

  /** A dump in the flattened format: runs of bytes, each with its offset in the file they make. */
  class DumpFile {
    var runs: seq<Run>

    function Image(): map<nat, Byte>
      reads this
    {
      Replay(runs)
    }

    constructor ()
      ensures runs == [] && Image() == map[]
    {
      runs := [];
    }

    /** `write_buffer`. */
    method Write(at: nat, data: Bytes)
      modifies this`runs
      ensures runs == old(runs) + [Run(at, data)]
      ensures WrittenAt(old(Image()), Image(), at, data)
    {
      LaidWritten(Image(), at, data);
      ReplayNext(runs, Run(at, data));
      runs := runs + [Run(at, data)];
    }
  }

  lemma HoldsStays(file: map<nat, Byte>, file': map<nat, Byte>, at: nat, data: seq<Byte>, from: nat, to: nat)
    requires Holds(file, at, data) && SameOutside(file, file', from, to) && (to <= at || at + |data| <= from)
    ensures Holds(file', at, data)
  {
  }

  // ---- Bits ----

  predicate Bit(b: nat, k: nat) {
    if k == 0 then b % 2 == 1 else Bit(b / 2, k - 1)
  }

  /** b with bit k set to v. */
  function WithBit(b: nat, k: nat, v: bool): nat {
    if k == 0 then b / 2 * 2 + (if v then 1 else 0) else WithBit(b / 2, k - 1, v) * 2 + b % 2
  }

  lemma {:induction false} BitOfWithBit(b: nat, k: nat, v: bool, j: nat)
    ensures Bit(WithBit(b, k, v), j) == if j == k then v else Bit(b, j)
  {
    if k > 0 && j > 0 {
      BitOfWithBit(b / 2, k - 1, v, j - 1);
    }
  }

  function Power(n: nat): nat { if n == 0 then 1 else 2 * Power(n - 1) }

  lemma {:induction false} WithBitBound(b: nat, k: nat, v: bool, n: nat)
    requires b < Power(n) && k < n
    ensures WithBit(b, k, v) < Power(n)
  {
    if k > 0 {
      WithBitBound(b / 2, k - 1, v, n - 1);
    }
  }

  lemma {:induction false} ZeroBits(k: nat)
    ensures !Bit(0, k)
  {
    if k > 0 {
      ZeroBits(k - 1);
    }
  }
}
