/** Merging a batch of write requests, and the completion of the batch. */
module Multiwrite {
  import opened Values

  const SECTOR: nat := 512
  const IOV_MAX: nat := 1024
  const ENOMEDIUM: int := 123

  /** The elements of a vector as one. */
  function Flat<T>(vec: seq<seq<T>>): seq<T> {
    if vec == [] then [] else vec[0] + Flat(vec[1..])
  }

  /** `qemu_iovec_concat` of the first n elements: whole pieces, then the part of one that is left;
      empty pieces are skipped. */
  function Cut<T>(vec: seq<seq<T>>, n: nat): (r: seq<seq<T>>)
    requires n <= |Flat(vec)|
    ensures |r| <= |vec|
  {
    if n == 0 then []
    else if |vec[0]| >= n then [vec[0][..n]]
    else (if vec[0] == [] then [] else [vec[0]]) + Cut(vec[1..], n - |vec[0]|)
  }

  lemma {:induction false} CutFlat<T>(vec: seq<seq<T>>, n: nat)
    requires n <= |Flat(vec)|
    ensures Flat(Cut(vec, n)) == Flat(vec)[..n]
  {
    if n > 0 {
      if |vec[0]| >= n {
        assert [vec[0][..n]][1..] == [];
      } else {
        var rest := Cut(vec[1..], n - |vec[0]|);
        CutFlat(vec[1..], n - |vec[0]|);
        assert Flat(vec)[..n] == vec[0] + Flat(rest);
        assert [] + rest == rest && ([vec[0]] + rest)[1..] == rest;
      }
    }
  }

  lemma FlatOne<T>(vec: seq<seq<T>>)
    requires |vec| == 1
    ensures Flat(vec) == vec[0]
  {
    assert vec[1..] == [];
  }

  lemma {:induction false} FlatBoth<T>(a: seq<seq<T>>, b: seq<seq<T>>)
    ensures Flat(a + b) == Flat(a) + Flat(b)
  {
    if a == [] {
      assert a + b == b;
    } else {
      FlatBoth(a[1..], b);
      assert (a + b)[0] == a[0] && (a + b)[1..] == a[1..] + b;
    }
  }

  /** A write: its first sector, and the pieces of memory to be written from there on. */
  datatype WriteRequest<T> = WriteRequest(sector: nat, qiov: seq<seq<T>>) {
    function Data(): seq<T> { Flat(qiov) }
    function First(): nat { sector * SECTOR }
    function End(): nat { First() + |Data()| }
    predicate Covers(p: nat) { First() <= p < End() }
    function At(p: nat): T requires Covers(p) { Data()[p - First()] }
    predicate Whole() { |Data()| % SECTOR == 0 }
    function Sectors(): nat { |Data()| / SECTOR }
  }

  /** What a sequence of writes, applied in order, leaves at byte p; None if it is not written. */
  function Final<T>(reqs: seq<WriteRequest<T>>, p: nat): Option<T> {
    if reqs == [] then None
    else
      var r := reqs[|reqs| - 1];
      if r.Covers(p) then Some(r.At(p)) else Final(reqs[..|reqs| - 1], p)
  }

  /** The joined vector may not become too long. */
  predicate Fits<T>(last: WriteRequest<T>, r: WriteRequest<T>) {
    |last.qiov| + |r.qiov| + 1 <= IOV_MAX
  }

  predicate Joinable<T>(last: WriteRequest<T>, r: WriteRequest<T>) {
    r.First() <= last.End() && Fits(last, r)
  }

  /** A request joined to the one before: it replaces everything from its first sector on. */
  function Joined<T>(last: WriteRequest<T>, r: WriteRequest<T>): WriteRequest<T>
    requires last.First() <= r.First() <= last.End()
  {
    WriteRequest(last.sector, Cut(last.qiov, r.First() - last.First()) + Cut(r.qiov, |r.Data()|))
  }

  lemma JoinedData<T>(last: WriteRequest<T>, r: WriteRequest<T>)
    requires last.First() <= r.First() <= last.End()
    ensures Joined(last, r).Data() == last.Data()[..r.First() - last.First()] + r.Data()
  {
    var n := r.First() - last.First();
    CutFlat(last.qiov, n);
    CutFlat(r.qiov, |r.Data()|);
    FlatBoth(Cut(last.qiov, n), Cut(r.qiov, |r.Data()|));
  }

  lemma JoinedAt<T>(last: WriteRequest<T>, r: WriteRequest<T>, p: nat)
    requires last.First() <= r.First() <= last.End()
    ensures Joined(last, r).End() == r.End()
    ensures Joined(last, r).Covers(p) <==> last.First() <= p < r.End()
    ensures Joined(last, r).Covers(p) ==> Joined(last, r).At(p) == if p < r.First() then last.At(p) else r.At(p)
  {
    JoinedData(last, r);
  }

  /** One turn of the merge loop: extend the last merged request or start a new one. */
  function Extend<T>(out: seq<WriteRequest<T>>, r: WriteRequest<T>): seq<WriteRequest<T>>
    requires out != [] && out[|out| - 1].sector <= r.sector
  {
    var last := out[|out| - 1];
    if Joinable(last, r) then out[..|out| - 1] + [Joined(last, r)] else out + [r]
  }

  predicate Sorted<T>(reqs: seq<WriteRequest<T>>) {
    forall i, j :: 0 <= i < j < |reqs| ==> reqs[i].sector <= reqs[j].sector
  }

  lemma ExtendLast<T>(out: seq<WriteRequest<T>>, r: WriteRequest<T>)
    requires out != [] && out[|out| - 1].sector <= r.sector
    ensures var out' := Extend(out, r);
      && out' != [] && |out'| <= |out| + 1 && out'[|out'| - 1].sector <= r.sector && out'[|out'| - 1].End() == r.End()
  {
    var last := out[|out| - 1];
    if Joinable(last, r) {
      JoinedAt(last, r, 0);
    }
  }

  /** The merged requests after the first k of the sorted ones. */
  function Merged<T>(reqs: seq<WriteRequest<T>>, k: nat): (out: seq<WriteRequest<T>>)
    requires Sorted(reqs) && 1 <= k <= |reqs|
    ensures out != [] && |out| <= k
    ensures out[|out| - 1].sector <= reqs[k - 1].sector
    ensures out[|out| - 1].End() == reqs[k - 1].End()
  {
    if k == 1 then [reqs[0]] else
      ExtendLast(Merged(reqs, k - 1), reqs[k - 1]);
      Extend(Merged(reqs, k - 1), reqs[k - 1])
  }

  /** The request that request i may join: the last merged one of those before it. */
  function Open<T>(reqs: seq<WriteRequest<T>>, i: nat): (last: WriteRequest<T>)
    requires Sorted(reqs) && 1 <= i < |reqs|
    ensures last.sector <= reqs[i].sector && last.End() == reqs[i - 1].End()
  {
    var out := Merged(reqs, i);
    out[|out| - 1]
  }

  /** Request i continues the requests before it: it starts inside or right at the end of the one
      before, and the pieces gathered so far leave room for its own. */
  predicate Joins<T>(reqs: seq<WriteRequest<T>>, i: nat)
    requires Sorted(reqs) && i < |reqs|
  {
    i > 0 && reqs[i].First() <= reqs[i - 1].End() && Fits(Open(reqs, i), reqs[i])
  }

  /** No merged vector is longer than the limit, if none of the requests' is. */
  lemma {:induction false} VectorsFit<T>(reqs: seq<WriteRequest<T>>, k: nat)
    requires Sorted(reqs) && 1 <= k <= |reqs|
    requires forall i :: 0 <= i < |reqs| ==> |reqs[i].qiov| <= IOV_MAX
    ensures forall m :: 0 <= m < |Merged(reqs, k)| ==> |Merged(reqs, k)[m].qiov| <= IOV_MAX
  {
    if k > 1 {
      VectorsFit(reqs, k - 1);
    }
  }

  /** b begins after the end of a, or the vector of a left no room for the request that b began with. */
  ghost predicate Parted<T>(a: WriteRequest<T>, b: WriteRequest<T>, reqs: seq<WriteRequest<T>>) {
    || a.End() < b.First()
    || exists r :: r in reqs && r.sector == b.sector && |a.qiov| + |r.qiov| + 1 > IOV_MAX
  }

  ghost predicate AllParted<T>(out: seq<WriteRequest<T>>, reqs: seq<WriteRequest<T>>) {
    forall i, j :: 0 <= i < j < |out| && j == i + 1 ==> Parted(out[i], out[j], reqs)
  }

  lemma ExtendParted<T>(out: seq<WriteRequest<T>>, r: WriteRequest<T>, reqs: seq<WriteRequest<T>>)
    requires out != [] && out[|out| - 1].sector <= r.sector && AllParted(out, reqs) && r in reqs
    ensures AllParted(Extend(out, r), reqs)
  {
    var out' := Extend(out, r);
    forall i, j | 0 <= i < j < |out'| && j == i + 1 ensures Parted(out'[i], out'[j], reqs) {
      if j < |out| {
        assert Parted(out[i], out[j], reqs);
      }
    }
  }

  /** Requests are merged wherever they can be: two neighbours that are left have a gap between them, or
      the limit on the vector parted them. */
  lemma {:induction false} MergedParted<T>(reqs: seq<WriteRequest<T>>, k: nat)
    requires Sorted(reqs) && 1 <= k <= |reqs|
    ensures AllParted(Merged(reqs, k), reqs)
  {
    if k > 1 {
      MergedParted(reqs, k - 1);
      ExtendParted(Merged(reqs, k - 1), reqs[k - 1], reqs);
    }
  }

  // ---- In place ----

  /** One turn of the loop on the array: request i joins the request at outidx or follows it. */
  method PlaceRequest<T>(reqs: array<WriteRequest<T>>, outidx0: nat, i: nat) returns (outidx: nat)
    requires outidx0 < i < reqs.Length && reqs[outidx0].sector <= reqs[i].sector && reqs[outidx0].Whole()
    modifies reqs
    ensures outidx <= i && reqs[..outidx + 1] == Extend(old(reqs[..outidx0 + 1]), old(reqs[i]))
    ensures forall k :: i < k < reqs.Length ==> reqs[k] == old(reqs[k])
  {
    ghost var out := reqs[..outidx0 + 1];
    outidx := outidx0;
    var oldreqLast := reqs[outidx].sector + reqs[outidx].Sectors();
    var merge := false;
    if reqs[i].sector <= oldreqLast {
      merge := true;
    }
    if |reqs[outidx].qiov| + |reqs[i].qiov| + 1 > IOV_MAX {
      merge := false;
    }
    assert merge == Joinable(reqs[outidx], reqs[i]);
    if merge {
      var size := (reqs[i].sector - reqs[outidx].sector) * SECTOR;
      var qiov := Cut(reqs[outidx].qiov, size);
      qiov := qiov + Cut(reqs[i].qiov, |reqs[i].Data()|);
      reqs[outidx] := WriteRequest(reqs[outidx].sector, qiov);
      assert reqs[..outidx + 1] == out[..outidx] + [reqs[outidx]];
    } else {
      outidx := outidx + 1;
      reqs[outidx] := reqs[i];
      assert reqs[..outidx + 1] == out + [reqs[outidx]];
    }
  }

  predicate AllWhole<T>(reqs: seq<WriteRequest<T>>) {
    forall i :: 0 <= i < |reqs| ==> reqs[i].Whole()
  }

  lemma MergedStep<T>(reqs: seq<WriteRequest<T>>, i: nat)
    requires Sorted(reqs) && AllWhole(reqs) && 1 <= i < |reqs|
    ensures Open(reqs, i).Whole() && Merged(reqs, i + 1) == Extend(Merged(reqs, i), reqs[i])
  {
    var last := Open(reqs, i);
    assert last.End() == reqs[i - 1].End() && reqs[i - 1].Whole();
  }

  /** The array after i requests: the merged ones up to outidx, and from i on what is still to come. */
  ghost predicate MergedSoFar<T>(now: seq<WriteRequest<T>>, sorted: seq<WriteRequest<T>>, outidx: nat, i: nat)
    requires Sorted(sorted)
  {
    && outidx < i <= |sorted| == |now| && now[..outidx + 1] == Merged(sorted, i)
    && forall k :: i <= k < |now| ==> now[k] == sorted[k]
  }

  method MergeNext<T>(reqs: array<WriteRequest<T>>, outidx0: nat, i: nat, ghost sorted: seq<WriteRequest<T>>)
    returns (outidx: nat)
    requires Sorted(sorted) && AllWhole(sorted) && i < |sorted| && MergedSoFar(reqs[..], sorted, outidx0, i)
    modifies reqs
    ensures MergedSoFar(reqs[..], sorted, outidx, i + 1)
  {
    MergedStep(sorted, i);
    assert reqs[..][..outidx0 + 1] == reqs[..outidx0 + 1];
    assert reqs[outidx0] == reqs[..outidx0 + 1][outidx0] && reqs[i] == reqs[..][i];
    ghost var before := reqs[..];
    outidx := PlaceRequest(reqs, outidx0, i);
    assert reqs[..][..outidx + 1] == reqs[..outidx + 1];
    forall k | i < k < |sorted| ensures reqs[..][k] == sorted[k] {
      assert before[k] == sorted[k];
    }
  }

  /** `multiwrite_merge`; `sorted` is the order in which `qsort` leaves the requests, any one that is
      sorted by first sector. */
  method Merge<T>(reqs: array<WriteRequest<T>>, sorted: seq<WriteRequest<T>>) returns (n: nat)
    requires Sorted(sorted) && AllWhole(sorted) && multiset(sorted) == multiset(reqs[..]) && |sorted| == reqs.Length > 0
    modifies reqs
    ensures 1 <= n <= reqs.Length && reqs[..n] == Merged(sorted, |sorted|)
  {
    forall i | 0 <= i < reqs.Length {
      reqs[i] := sorted[i];
    }
    var outidx: nat := 0;
    assert reqs[..][..1] == [reqs[0]];
    for i := 1 to reqs.Length
      invariant MergedSoFar(reqs[..], sorted, outidx, i)
    {
      outidx := MergeNext(reqs, outidx, i, sorted);
    }
    n := outidx + 1;
    assert reqs[..][..n] == reqs[..n];
  }

  // ---- What merging keeps ----

  /** Byte p, written by request i - 1, is dropped when request i joins and ends before it, and
      no later request writes it. */
  predicate Loses<T>(reqs: seq<WriteRequest<T>>, i: nat, p: nat)
    requires Sorted(reqs) && i < |reqs|
  {
    && Joins(reqs, i) && reqs[i].End() <= p < reqs[i - 1].End()
    && forall k :: i < k < |reqs| ==> !reqs[k].Covers(p)
  }

  ghost predicate NothingLost<T>(reqs: seq<WriteRequest<T>>)
    requires Sorted(reqs)
  {
    forall i, p: nat :: 0 <= i < |reqs| ==> !Loses(reqs, i, p)
  }

  /** Some joining request among the first k dropped byte p, and none of them wrote it since. */
  ghost predicate LostBy<T>(reqs: seq<WriteRequest<T>>, k: nat, p: nat)
    requires Sorted(reqs) && k <= |reqs|
  {
    exists i :: 0 <= i < k && Drops(reqs, i, k, p)
  }

  ghost predicate Drops<T>(reqs: seq<WriteRequest<T>>, i: nat, k: nat, p: nat)
    requires Sorted(reqs) && i < k <= |reqs|
  {
    && Joins(reqs, i) && reqs[i].End() <= p < reqs[i - 1].End()
    && forall m :: i < m < k ==> !reqs[m].Covers(p)
  }

  /** One request more: what `Final` says when its last request is known. */
  lemma FinalLast<T>(reqs: seq<WriteRequest<T>>, r: WriteRequest<T>, p: nat)
    ensures Final(reqs + [r], p) == if r.Covers(p) then Some(r.At(p)) else Final(reqs, p)
  {
    assert (reqs + [r])[..|reqs|] == reqs;
  }

  /** One turn of the loop changes byte p only to what r writes, or drops it past r's end. */
  lemma ExtendFinal<T>(out: seq<WriteRequest<T>>, r: WriteRequest<T>, p: nat)
    requires out != [] && out[|out| - 1].sector <= r.sector
    ensures r.Covers(p) ==> Final(Extend(out, r), p) == Some(r.At(p))
    ensures !r.Covers(p) && !(Joinable(out[|out| - 1], r) && r.End() <= p < out[|out| - 1].End()) ==>
      Final(Extend(out, r), p) == Final(out, p)
  {
    var last, front := out[|out| - 1], out[..|out| - 1];
    assert out == front + [last];
    FinalLast(front, last, p);
    if Joinable(last, r) {
      JoinedAt(last, r, p);
      FinalLast(front, Joined(last, r), p);
    } else {
      FinalLast(out, r, p);
    }
  }

  lemma NextFinal<T>(reqs: seq<WriteRequest<T>>, i: nat, p: nat)
    requires Sorted(reqs) && 1 <= i < |reqs| && !(Joins(reqs, i) && reqs[i].End() <= p < reqs[i - 1].End())
    ensures Final(Merged(reqs, i + 1), p) ==
            if reqs[i].Covers(p) then Some(reqs[i].At(p)) else Final(Merged(reqs, i), p)
  {
    ExtendFinal(Merged(reqs, i), reqs[i], p);
    assert Joins(reqs, i) == Joinable(Open(reqs, i), reqs[i]);
  }

  lemma NotLostBefore<T>(reqs: seq<WriteRequest<T>>, i: nat, p: nat)
    requires Sorted(reqs) && i < |reqs| && !reqs[i].Covers(p) && !LostBy(reqs, i + 1, p)
    ensures !LostBy(reqs, i, p)
  {
    if LostBy(reqs, i, p) {
      var j :| 0 <= j < i && Drops(reqs, j, i, p);
      assert Drops(reqs, j, i + 1, p);
    }
  }

  lemma {:induction false} MergedFinal<T>(reqs: seq<WriteRequest<T>>, k: nat, p: nat)
    requires Sorted(reqs) && 1 <= k <= |reqs| && !LostBy(reqs, k, p)
    ensures Final(Merged(reqs, k), p) == Final(reqs[..k], p)
  {
    var i := k - 1;
    assert reqs[..k] == reqs[..i] + [reqs[i]];
    FinalLast(reqs[..i], reqs[i], p);
    if i > 0 {
      assert !Drops(reqs, i, k, p);
      NextFinal(reqs, i, p);
      if !reqs[i].Covers(p) {
        NotLostBefore(reqs, i, p);
        MergedFinal(reqs, i, p);
      }
    } else {
      assert reqs[..1] == [reqs[0]];
    }
  }

  /** The merged requests, applied in order, leave what the sorted ones leave. */
  lemma MergePreserves<T>(reqs: seq<WriteRequest<T>>, p: nat)
    requires Sorted(reqs) && |reqs| > 0 && NothingLost(reqs)
    ensures Final(Merged(reqs, |reqs|), p) == Final(reqs, p)
  {
    if LostBy(reqs, |reqs|, p) {
      var i :| 0 <= i < |reqs| && Drops(reqs, i, |reqs|, p);
      assert Loses(reqs, i, p);
    }
    MergedFinal(reqs, |reqs|, p);
    assert reqs[..|reqs|] == reqs;
  }

  // ---- When it loses something ----

  /** v stands in the data of request j and nowhere else. */
  ghost predicate Marks<T>(reqs: seq<WriteRequest<T>>, j: nat, v: T) {
    forall k, p: nat :: 0 <= k < |reqs| && reqs[k].Covers(p) ==> (reqs[k].At(p) == v <==> k == j)
  }

  /** No request writes v at p. */
  ghost predicate NoTrace<T>(out: seq<WriteRequest<T>>, v: T, p: nat) {
    forall m :: 0 <= m < |out| && out[m].Covers(p) ==> out[m].At(p) != v
  }

  lemma ExtendNoTrace<T>(out: seq<WriteRequest<T>>, r: WriteRequest<T>, v: T, p: nat)
    requires out != [] && out[|out| - 1].sector <= r.sector && NoTrace(out, v, p) && (r.Covers(p) ==> r.At(p) != v)
    ensures NoTrace(Extend(out, r), v, p)
  {
    var last := out[|out| - 1];
    if Joinable(last, r) {
      JoinedAt(last, r, p);
    }
  }

  lemma {:induction false} NotYet<T>(reqs: seq<WriteRequest<T>>, j: nat, k: nat, v: T, p: nat)
    requires Sorted(reqs) && 1 <= k <= |reqs| && k <= j && Marks(reqs, j, v)
    ensures NoTrace(Merged(reqs, k), v, p)
  {
    if k > 1 {
      var m := k - 1;
      NotYet(reqs, j, m, v, p);
      NextNoTrace(reqs, m, v, p);
    }
  }

  /** Right after request j, what is no longer open has nothing of it. */
  lemma OnlyOpen<T>(reqs: seq<WriteRequest<T>>, j: nat, v: T, p: nat)
    requires Sorted(reqs) && j < |reqs| && Marks(reqs, j, v)
    ensures var out := Merged(reqs, j + 1);
      NoTrace(out[..|out| - 1], v, p)
  {
    if j > 0 {
      NotYet(reqs, j, j, v, p);
    }
  }

  lemma DropNoTrace<T>(out: seq<WriteRequest<T>>, r: WriteRequest<T>, v: T, p: nat)
    requires out != [] && out[|out| - 1].sector <= r.sector && Joinable(out[|out| - 1], r) && r.End() <= p
    requires NoTrace(out[..|out| - 1], v, p)
    ensures NoTrace(Extend(out, r), v, p)
  {
    var last := out[|out| - 1];
    JoinedAt(last, r, p);
    var out' := Extend(out, r);
    forall m | 0 <= m < |out'| && out'[m].Covers(p) ensures out'[m].At(p) != v {
      assert m < |out| - 1 && out'[m] == out[..|out| - 1][m];
    }
  }

  lemma DroppedThere<T>(reqs: seq<WriteRequest<T>>, i: nat, v: T, p: nat)
    requires Sorted(reqs) && i < |reqs| && Loses(reqs, i, p) && Marks(reqs, i - 1, v)
    ensures NoTrace(Merged(reqs, i + 1), v, p)
  {
    var out := Merged(reqs, i);
    OnlyOpen(reqs, i - 1, v, p);
    assert Joinable(out[|out| - 1], reqs[i]);
    DropNoTrace(out, reqs[i], v, p);
  }

  /** What is gone stays gone while nobody writes there. */
  lemma {:induction false} GoneForGood<T>(reqs: seq<WriteRequest<T>>, i: nat, k: nat, v: T, p: nat)
    requires Sorted(reqs) && 1 <= i <= k <= |reqs| && NoTrace(Merged(reqs, i), v, p)
    requires forall m :: i <= m < |reqs| ==> !reqs[m].Covers(p)
    ensures NoTrace(Merged(reqs, k), v, p)
    decreases k - i
  {
    if i < k {
      var m := k - 1;
      GoneForGood(reqs, i, m, v, p);
      NextNoTrace(reqs, m, v, p);
    }
  }

  lemma NextNoTrace<T>(reqs: seq<WriteRequest<T>>, i: nat, v: T, p: nat)
    requires Sorted(reqs) && 1 <= i < |reqs| && NoTrace(Merged(reqs, i), v, p)
    requires reqs[i].Covers(p) ==> reqs[i].At(p) != v
    ensures NoTrace(Merged(reqs, i + 1), v, p)
  {
    ExtendNoTrace(Merged(reqs, i), reqs[i], v, p);
  }

  lemma {:induction false} NoTraceFinal<T>(out: seq<WriteRequest<T>>, v: T, p: nat)
    requires NoTrace(out, v, p)
    ensures Final(out, p) != Some(v)
  {
    if out != [] {
      NoTraceFinal(out[..|out| - 1], v, p);
    }
  }

  lemma {:induction false} FinalIs<T>(reqs: seq<WriteRequest<T>>, j: nat, p: nat)
    requires j < |reqs| && reqs[j].Covers(p) && forall k :: j < k < |reqs| ==> !reqs[k].Covers(p)
    ensures Final(reqs, p) == Some(reqs[j].At(p))
  {
    if j < |reqs| - 1 {
      FinalIs(reqs[..|reqs| - 1], j, p);
    }
  }

  lemma LossShows<T>(reqs: seq<WriteRequest<T>>, i: nat, v: T, p: nat)
    requires Sorted(reqs) && i < |reqs| && Loses(reqs, i, p) && Marks(reqs, i - 1, v)
    ensures Final(Merged(reqs, |reqs|), p) != Final(reqs, p)
  {
    DroppedThere(reqs, i, v, p);
    LastWriter(reqs, i, p);
    GoneForGood(reqs, i + 1, |reqs|, v, p);
    NoTraceFinal(Merged(reqs, |reqs|), v, p);
    FinalIs(reqs, i - 1, p);
  }

  /** The request that loses p is the last one to write it. */
  lemma LastWriter<T>(reqs: seq<WriteRequest<T>>, i: nat, p: nat)
    requires Sorted(reqs) && i < |reqs| && Loses(reqs, i, p)
    ensures reqs[i - 1].Covers(p) && forall k :: i <= k < |reqs| ==> !reqs[k].Covers(p)
  {
  }

  // ---- Whatever the requests carry ----

  predicate SameForm<T>(a: seq<seq<T>>, b: seq<seq<T>>) {
    |a| == |b| && forall x :: 0 <= x < |a| ==> |a[x]| == |b[x]|
  }

  /** The same sectors in the same pieces, with any data. */
  predicate SameShape<T>(a: seq<WriteRequest<T>>, b: seq<WriteRequest<T>>) {
    |a| == |b| && forall k :: 0 <= k < |a| ==> a[k].sector == b[k].sector && SameForm(a[k].qiov, b[k].qiov)
  }

  lemma {:induction false} FlatForm<T>(a: seq<seq<T>>, b: seq<seq<T>>)
    requires SameForm(a, b)
    ensures |Flat(a)| == |Flat(b)|
  {
    if a != [] {
      FlatForm(a[1..], b[1..]);
    }
  }

  lemma {:induction false} CutForm<T>(a: seq<seq<T>>, b: seq<seq<T>>, n: nat)
    requires SameForm(a, b) && n <= |Flat(a)| && n <= |Flat(b)|
    ensures SameForm(Cut(a, n), Cut(b, n))
  {
    if n > 0 && |a[0]| < n {
      CutForm(a[1..], b[1..], n - |a[0]|);
    }
  }

  lemma ExtendForm<T>(a: seq<WriteRequest<T>>, b: seq<WriteRequest<T>>, r: WriteRequest<T>, t: WriteRequest<T>)
    requires a != [] && SameShape(a, b) && r.sector == t.sector && SameForm(r.qiov, t.qiov)
    requires a[|a| - 1].sector <= r.sector
    ensures SameShape(Extend(a, r), Extend(b, t))
  {
    var x, y := a[|a| - 1], b[|b| - 1];
    FlatForm(x.qiov, y.qiov);
    FlatForm(r.qiov, t.qiov);
    if Joinable(x, r) {
      CutForm(x.qiov, y.qiov, r.First() - x.First());
      CutForm(r.qiov, t.qiov, |r.Data()|);
    }
  }

  lemma {:induction false} MergedForm<T>(a: seq<WriteRequest<T>>, b: seq<WriteRequest<T>>, k: nat)
    requires SameShape(a, b) && Sorted(a) && Sorted(b) && 1 <= k <= |a|
    ensures SameShape(Merged(a, k), Merged(b, k))
  {
    if k > 1 {
      MergedForm(a, b, k - 1);
      ExtendForm(Merged(a, k - 1), Merged(b, k - 1), a[k - 1], b[k - 1]);
    }
  }

  lemma LosesForm<T>(a: seq<WriteRequest<T>>, b: seq<WriteRequest<T>>, i: nat, p: nat)
    requires SameShape(a, b) && Sorted(a) && Sorted(b) && i < |a| && Loses(a, i, p)
    ensures Loses(b, i, p)
  {
    MergedForm(a, b, i);
    forall k | 0 <= k < |a| ensures a[k].End() == b[k].End() && a[k].First() == b[k].First() {
      FlatForm(a[k].qiov, b[k].qiov);
    }
  }

  /** Merging keeps every byte. */
  ghost predicate Faithful<T>(reqs: seq<WriteRequest<T>>)
    requires Sorted(reqs) && |reqs| > 0
  {
    forall p: nat :: Final(Merged(reqs, |reqs|), p) == Final(reqs, p)
  }

  lemma FaithfulForm<T>(reqs: seq<WriteRequest<T>>, other: seq<WriteRequest<T>>)
    requires Sorted(reqs) && |reqs| > 0 && NothingLost(reqs) && SameShape(reqs, other)
    ensures Sorted(other) && Faithful(other)
  {
    forall i, p: nat | 0 <= i < |other| ensures !Loses(other, i, p) {
      if Loses(other, i, p) {
        LosesForm(other, reqs, i, p);
      }
    }
    forall p: nat ensures Final(Merged(other, |other|), p) == Final(other, p) {
      MergePreserves(other, p);
    }
  }

  function Filled(vec: seq<seq<Byte>>, v: Byte): seq<seq<Byte>> {
    seq(|vec|, x requires 0 <= x < |vec| => seq(|vec[x]|, _ => v))
  }

  lemma {:induction false} FilledFlat(vec: seq<seq<Byte>>, v: Byte)
    ensures forall x :: 0 <= x < |Flat(Filled(vec, v))| ==> Flat(Filled(vec, v))[x] == v
  {
    if vec != [] {
      FilledFlat(vec[1..], v);
      assert Filled(vec, v)[1..] == Filled(vec[1..], v);
    }
  }

  /** The requests with ones in request j and zeros in the others. */
  function Marking(reqs: seq<WriteRequest<Byte>>, j: nat): (r: seq<WriteRequest<Byte>>)
    ensures SameShape(reqs, r)
  {
    seq(|reqs|, k requires 0 <= k < |reqs| =>
      WriteRequest(reqs[k].sector, Filled(reqs[k].qiov, if k == j then 1 else 0)))
  }

  lemma MarkingMarks(reqs: seq<WriteRequest<Byte>>, j: nat)
    ensures Marks(Marking(reqs, j), j, 1)
  {
    var r := Marking(reqs, j);
    forall k, p: nat | 0 <= k < |r| && r[k].Covers(p) ensures r[k].At(p) == 1 <==> k == j {
      FilledFlat(reqs[k].qiov, if k == j then 1 else 0);
    }
  }

  /** Merging keeps every byte whatever the requests carry exactly when no joining request ends before
      the one it joins without a later request writing the bytes in between. */
  lemma MergeFaithfulIff(reqs: seq<WriteRequest<Byte>>)
    requires Sorted(reqs) && |reqs| > 0
    ensures NothingLost(reqs) <==> forall other :: SameShape(reqs, other) ==> Sorted(other) && Faithful(other)
  {
    if NothingLost(reqs) {
      forall other | SameShape(reqs, other) ensures Sorted(other) && Faithful(other) {
        FaithfulForm(reqs, other);
      }
    } else {
      var i, p: nat :| 0 <= i < |reqs| && Loses(reqs, i, p);
      var other := Marking(reqs, i - 1);
      LosesForm(reqs, other, i, p);
      MarkingMarks(reqs, i - 1);
      LossShows(other, i, 1, p);
      assert SameShape(reqs, other) && !Faithful(other);
    }
  }

  /** A short write inside a longer one loses the longer one's tail. */
  lemma ShortInsideLong(a: WriteRequest<Byte>, b: WriteRequest<Byte>)
    requires a.sector == 0 && |a.qiov| == 1 && |a.qiov[0]| == 3 * SECTOR
    requires b.sector == 1 && |b.qiov| == 1 && |b.qiov[0]| == SECTOR
    ensures Sorted([a, b]) && Final([a, b], 2 * SECTOR).Some? && Final(Merged([a, b], 2), 2 * SECTOR) == None
  {
    var p := 2 * SECTOR;
    FlatOne(a.qiov);
    FlatOne(b.qiov);
    assert |a.Data()| == 3 * SECTOR && |b.Data()| == SECTOR && !b.Covers(p);
    assert Merged([a, b], 1) == [a] && Merged([a, b], 2) == Extend([a], b);
    FinalIs([a, b], 0, p);
    JoinedAt(a, b, p);
    FinalLast([], Joined(a, b), p);
    assert Extend([a], b) == [] + [Joined(a, b)];
  }

  // ---- In any order of completion ----

  /** No two requests write the same byte. */
  ghost predicate Apart<T>(reqs: seq<WriteRequest<T>>) {
    forall i, j, p: nat :: 0 <= i < j < |reqs| ==> !(reqs[i].Covers(p) && reqs[j].Covers(p))
  }

  /** The limit on the vector never keeps a request from joining. */
  ghost predicate Unlimited<T>(reqs: seq<WriteRequest<T>>)
    requires Sorted(reqs)
  {
    forall i :: 0 < i < |reqs| ==> Fits(Open(reqs, i), reqs[i])
  }

  /** Each request ends before the next begins, and does not touch it. */
  ghost predicate InOrder<T>(out: seq<WriteRequest<T>>) {
    forall i, j :: 0 <= i < j < |out| ==> out[i].End() < out[j].First()
  }

  lemma {:induction false} MergedInOrder<T>(reqs: seq<WriteRequest<T>>, k: nat)
    requires Sorted(reqs) && Unlimited(reqs) && 1 <= k <= |reqs|
    ensures InOrder(Merged(reqs, k))
  {
    if k > 1 {
      var i := k - 1;
      MergedInOrder(reqs, i);
      assert Fits(Open(reqs, i), reqs[i]);
      NextInOrder(reqs, i);
    }
  }

  lemma NextInOrder<T>(reqs: seq<WriteRequest<T>>, i: nat)
    requires Sorted(reqs) && 1 <= i < |reqs| && Fits(Open(reqs, i), reqs[i]) && InOrder(Merged(reqs, i))
    ensures InOrder(Merged(reqs, i + 1))
  {
    ExtendInOrder(Merged(reqs, i), reqs[i]);
  }

  lemma ExtendInOrder<T>(out: seq<WriteRequest<T>>, r: WriteRequest<T>)
    requires out != [] && out[|out| - 1].sector <= r.sector && Fits(out[|out| - 1], r) && InOrder(out)
    ensures InOrder(Extend(out, r))
  {
  }

  /** Requests that do not meet leave the same whatever the order. */
  lemma {:induction false} ApartFinal<T>(reqs: seq<WriteRequest<T>>, p: nat)
    requires Apart(reqs)
    ensures Final(reqs, p).None? ==> forall r :: r in reqs ==> !r.Covers(p)
    ensures forall r :: r in reqs && r.Covers(p) ==> Final(reqs, p) == Some(r.At(p))
  {
    forall i | 0 <= i < |reqs| && reqs[i].Covers(p) ensures Final(reqs, p) == Some(reqs[i].At(p)) {
      FinalIs(reqs, i, p);
    }
  }

  lemma {:induction false} Writer<T>(reqs: seq<WriteRequest<T>>, p: nat) returns (r: WriteRequest<T>)
    requires Final(reqs, p).Some?
    ensures r in reqs && r.Covers(p) && Final(reqs, p) == Some(r.At(p))
  {
    var last := reqs[|reqs| - 1];
    if last.Covers(p) {
      r := last;
    } else {
      r := Writer(reqs[..|reqs| - 1], p);
    }
  }

  lemma Twice<T>(s: seq<T>, i: nat, j: nat)
    requires i < j < |s| && s[i] == s[j]
    ensures multiset(s)[s[i]] >= 2
  {
    assert s == s[..j] + [s[j]] + s[j + 1..];
    assert s[i] in s[..j];
  }

  lemma TwoPlaces<T>(s: seq<T>, v: T) returns (i: nat, j: nat)
    requires multiset(s)[v] >= 2
    ensures i < j < |s| && s[i] == s[j] == v
  {
    assert v in s;
    i :| 0 <= i < |s| && s[i] == v;
    var rest := s[..i] + s[i + 1..];
    assert s == s[..i] + [s[i]] + s[i + 1..];
    assert v in multiset(rest);
    assert v in rest;
    var k :| 0 <= k < |rest| && rest[k] == v;
    j := if k < i then k else k + 1;
    i, j := if i < j then i else j, if i < j then j else i;
  }

  lemma PermutedApart<T>(out: seq<WriteRequest<T>>, order: seq<WriteRequest<T>>)
    requires Apart(out) && multiset(order) == multiset(out)
    ensures Apart(order)
  {
    forall i, j, p: nat | 0 <= i < j < |order| ensures !(order[i].Covers(p) && order[j].Covers(p)) {
      assert order[i] in multiset(out) && order[j] in multiset(out);
      assert order[i] in out && order[j] in out;
      if order[i] == order[j] {
        Twice(order, i, j);
        var m, n := TwoPlaces(out, order[i]);
      } else {
        var m :| 0 <= m < |out| && out[m] == order[i];
        var n :| 0 <= n < |out| && out[n] == order[j];
        assert m < n || n < m;
      }
    }
  }

  /** The merged requests are submitted together and run concurrently. Unless the limit on the vector
      kept two apart, they leave the same in whatever order they are carried out. */
  lemma AnyOrder<T>(reqs: seq<WriteRequest<T>>, order: seq<WriteRequest<T>>, p: nat)
    requires Sorted(reqs) && |reqs| > 0 && Unlimited(reqs) && multiset(order) == multiset(Merged(reqs, |reqs|))
    ensures Final(order, p) == Final(Merged(reqs, |reqs|), p)
  {
    var out := Merged(reqs, |reqs|);
    MergedInOrder(reqs, |reqs|);
    assert Apart(out);
    PermutedApart(out, order);
    ApartFinal(out, p);
    ApartFinal(order, p);
    if Final(out, p).Some? {
      var r := Writer(out, p);
      assert r in multiset(order);
    }
    if Final(order, p).Some? {
      var r := Writer(order, p);
      assert r in multiset(out);
    }
  }

  /** Completion state of a batch: the first error, the merged requests still out, and the
      callbacks made so far with the error each was given. */
  datatype Batch = Batch(error: int, pending: nat, fired: seq<(nat, int)>)

  function CallAll(callbacks: seq<nat>, error: int): seq<(nat, int)> {
    seq(|callbacks|, i requires 0 <= i < |callbacks| => (callbacks[i], error))
  }

  /** `multiwrite_cb` for one merged request that finished with `ret`. */
  function Completed(b: Batch, callbacks: seq<nat>, ret: int): Batch
    requires b.pending > 0
  {
    var error := if ret < 0 && b.error == 0 then ret else b.error;
    Batch(error, b.pending - 1,
          if b.pending == 1 then b.fired + CallAll(callbacks, error) else b.fired)
  }

  /** The first negative result, or 0. */
  function FirstError(rets: seq<int>): int {
    if rets == [] then 0 else if rets[0] < 0 then rets[0] else FirstError(rets[1..])
  }

  function CompleteAll(b: Batch, callbacks: seq<nat>, rets: seq<int>): (r: Batch)
    requires |rets| <= b.pending
    ensures r.pending == b.pending - |rets|
  {
    if rets == [] then b
    else Completed(CompleteAll(b, callbacks, rets[..|rets| - 1]), callbacks, rets[|rets| - 1])
  }

  lemma {:induction false} FirstErrorLast(rets: seq<int>)
    requires rets != []
    ensures FirstError(rets) == var front := FirstError(rets[..|rets| - 1]);
      if front != 0 then front else if rets[|rets| - 1] < 0 then rets[|rets| - 1] else 0
  {
    if |rets| > 1 {
      assert rets[1..][..|rets| - 2] == rets[..|rets| - 1][1..];
      FirstErrorLast(rets[1..]);
    } else {
      assert rets[1..] == [] && rets[..0] == [];
    }
  }

  lemma {:induction false} CompletionState(n: nat, callbacks: seq<nat>, rets: seq<int>)
    requires |rets| <= n
    ensures var b := CompleteAll(Batch(0, n, []), callbacks, rets);
      && b.pending == n - |rets| && b.error == FirstError(rets)
      && b.fired == if |rets| == n && n > 0 then CallAll(callbacks, FirstError(rets)) else []
  {
    if rets != [] {
      CompletionState(n, callbacks, rets[..|rets| - 1]);
      FirstErrorLast(rets);
    }
  }

  /** Every callback is made exactly once, when the last merged request completes and not before,
      and all get the first error in completion order. */
  lemma CallbacksOnce(n: nat, callbacks: seq<nat>, rets: seq<int>, k: nat)
    requires |rets| == n > 0 && k < n
    ensures CompleteAll(Batch(0, n, []), callbacks, rets[..k]).fired == []
    ensures CompleteAll(Batch(0, n, []), callbacks, rets).fired == CallAll(callbacks, FirstError(rets))
  {
    CompletionState(n, callbacks, rets[..k]);
    CompletionState(n, callbacks, rets);
  }

  class MultiwriteCB {
    var error: int
    var numRequests: nat
    var fired: seq<(nat, int)>
    const callbacks: seq<nat>

    function B(): Batch
      reads this
    {
      Batch(error, numRequests, fired)
    }

    constructor (callbacks: seq<nat>, numRequests: nat)
      ensures B() == Batch(0, numRequests, []) && this.callbacks == callbacks
    {
      this.callbacks, this.numRequests, error, fired := callbacks, numRequests, 0, [];
    }

    /** `multiwrite_user_cb`: every user's callback, once, with the common result. */
    method CallUsers()
      modifies this`fired
      ensures fired == old(fired) + CallAll(callbacks, error)
    {
      ghost var calls := CallAll(callbacks, error);
      for i := 0 to |callbacks|
        invariant fired == old(fired) + calls[..i]
      {
        assert calls[..i + 1] == calls[..i] + [calls[i]];
        fired := fired + [(callbacks[i], error)];
      }
      assert calls[..|calls|] == calls;
    }

    method Complete(ret: int)
      requires numRequests > 0
      modifies this
      ensures B() == Completed(old(B()), callbacks, ret)
    {
      if ret < 0 && error == 0 {
        error := ret;
      }
      numRequests := numRequests - 1;
      if numRequests == 0 {
        CallUsers();
      }
    }
  }

  /** `bdrv_aio_multiwrite`: what is submitted, and the record of the batch; `sorted` is the order in
      which `qsort` leaves the requests. */
  method AioMultiwrite<T>(hasDriver: bool, reqs: array<WriteRequest<T>>, callbacks: seq<nat>,
                          sorted: seq<WriteRequest<T>>)
    returns (ret: int, errors: seq<int>, submitted: seq<WriteRequest<T>>, mcb: MultiwriteCB?)
    requires |callbacks| == reqs.Length && Sorted(sorted) && AllWhole(sorted) && multiset(sorted) == multiset(reqs[..])
    modifies reqs
    ensures !hasDriver ==> ret == -1 && reqs[..] == old(reqs[..]) && errors == seq(reqs.Length, _ => -ENOMEDIUM)
    ensures hasDriver ==> ret == 0 && errors == []
    ensures !hasDriver || sorted == [] ==> submitted == [] && mcb == null
    ensures hasDriver && sorted != [] ==> submitted == Merged(sorted, |sorted|)
    ensures hasDriver && sorted != [] ==>
      mcb != null && fresh(mcb) && mcb.callbacks == callbacks && mcb.B() == Batch(0, |submitted|, [])
  {
    ret, errors, submitted, mcb := 0, [], [], null;
    assert |sorted| == reqs.Length by {
      assert |multiset(sorted)| == |sorted| && |multiset(reqs[..])| == reqs.Length;
    }
    if !hasDriver {
      return -1, seq(reqs.Length, _ => -ENOMEDIUM), submitted, mcb;
    }
    if reqs.Length == 0 {
      return;
    }
    var n := Merge(reqs, sorted);
    mcb := new MultiwriteCB(callbacks, n);
    submitted := reqs[..n];
  }

  /** A batch from submission to its last completion: `rets` are the results of the submitted requests in
      the order in which they complete. Every request's callback is made once, all with the first error,
      and the submitted requests leave what the requests in sorted order leave. */
  method Multiwrite<T>(reqs: array<WriteRequest<T>>, callbacks: seq<nat>, sorted: seq<WriteRequest<T>>, rets: seq<int>)
    returns (fired: seq<(nat, int)>, submitted: seq<WriteRequest<T>>)
    requires |callbacks| == reqs.Length && Sorted(sorted) && AllWhole(sorted) && multiset(sorted) == multiset(reqs[..])
    requires if sorted == [] then rets == [] else |rets| == |Merged(sorted, |sorted|)|
    modifies reqs
    ensures fired == CallAll(callbacks, FirstError(rets))
    ensures NothingLost(sorted) ==> forall p: nat :: Final(submitted, p) == Final(sorted, p)
    ensures sorted != [] && NothingLost(sorted) && Unlimited(sorted) ==>
      forall order, p: nat :: multiset(order) == multiset(submitted) ==> Final(order, p) == Final(sorted, p)
  {
    var ret, errors, mcb;
    ret, errors, submitted, mcb := AioMultiwrite(true, reqs, callbacks, sorted);
    fired := [];
    if mcb == null {
      assert |multiset(sorted)| == |sorted| && |multiset(reqs[..])| == reqs.Length;
      return;
    }
    for k := 0 to |rets|
      invariant mcb.callbacks == callbacks
      invariant mcb.B() == CompleteAll(Batch(0, |submitted|, []), callbacks, rets[..k])
    {
      CompletionState(|submitted|, callbacks, rets[..k]);
      assert rets[..k + 1][..k] == rets[..k];
      mcb.Complete(rets[k]);
    }
    assert rets[..|rets|] == rets;
    CompletionState(|submitted|, callbacks, rets);
    fired := mcb.fired;
    BatchWritten(sorted);
  }

  lemma BatchWritten<T>(sorted: seq<WriteRequest<T>>)
    requires Sorted(sorted) && sorted != []
    ensures NothingLost(sorted) ==> forall p: nat :: Final(Merged(sorted, |sorted|), p) == Final(sorted, p)
    ensures NothingLost(sorted) && Unlimited(sorted) ==>
      forall order, p: nat :: multiset(order) == multiset(Merged(sorted, |sorted|)) ==>
        Final(order, p) == Final(sorted, p)
  {
    if NothingLost(sorted) {
      forall p: nat ensures Final(Merged(sorted, |sorted|), p) == Final(sorted, p) {
        MergePreserves(sorted, p);
      }
      if Unlimited(sorted) {
        forall order, p: nat | multiset(order) == multiset(Merged(sorted, |sorted|))
          ensures Final(order, p) == Final(sorted, p)
        {
          AnyOrder(sorted, order, p);
        }
      }
    }
  }
}
