/** Delta encoding of a page against its previous contents: alternating runs of unchanged and
    changed bytes, each run preceded by its length in one or two bytes. */
module Xbzrle {
  import opened Values

  const MAX_RUN: nat := 0x3fff

  // ---- Run lengths ----

  /** `uleb128_encode_small`. */
  function Uleb(n: nat): (r: seq<Byte>)
    requires n <= MAX_RUN
    ensures |r| == UlebLength(n)
  {
    if n < 0x80 then [n] else [n % 0x80 + 0x80, n / 0x80]
  }

  function UlebLength(n: int): nat { if n < 0x80 then 1 else 2 }

  /** `uleb128_decode_small`: the value and its length. */
  function UlebAt(src: seq<Byte>, pos: nat): Option<(nat, nat)>
    requires pos + 2 <= |src|
  {
    if src[pos] < 0x80 then Some((src[pos] as nat, 1))
    else if src[pos + 1] >= 0x80 then None
    else
      var low: int, high: int := src[pos] - 0x80, src[pos + 1];
      Some((low + high * 0x80, 2))
  }

  lemma UlebRoundTrip(src: seq<Byte>, pos: nat, n: nat)
    requires n <= MAX_RUN && pos + 2 <= |src| && Piece(src, pos, Uleb(n))
    ensures UlebAt(src, pos) == Some((n, UlebLength(n)))
  {
    assert src[pos] == Uleb(n)[0];
    if n >= 0x80 {
      assert src[pos + 1] == Uleb(n)[1];
    }
  }

  // ---- The decoder ----

  /** The two run lengths at a position of the encoding, and their own length. */
  datatype Header = Header(zrun: nat, count: nat, length: nat)

  /** The checks of one turn of `xbzrle_decode_buffer`; `room` is what is left of the page. */
  function HeaderAt(src: seq<Byte>, pos: nat, room: nat): (h: Option<Header>)
    ensures h.Some? ==>
      && 0 < h.value.count && 0 < h.value.length && pos + h.value.length + h.value.count <= |src|
      && h.value.zrun + h.value.count <= room
  {
    if |src| < pos + 2 then None else
      var z := UlebAt(src, pos);
      if z.None? || (pos > 0 && z.value.0 == 0) || z.value.0 > room then None else
        var pos1 := pos + z.value.1;
        if |src| < pos1 + 2 then None else
          var n := UlebAt(src, pos1);
          if n.None? || n.value.0 == 0 then None else
            var length := z.value.1 + n.value.1;
            if z.value.0 + n.value.0 > room || pos + length + n.value.0 > |src| then None
            else Some(Header(z.value.0, n.value.0, length))
  }

  /** dst with n bytes of src, from `at` on, copied to position d. */
  function Copied(dst: seq<Byte>, d: nat, src: seq<Byte>, at: nat, n: nat): (r: seq<Byte>)
    requires d + n <= |dst| && at + n <= |src|
    ensures |r| == |dst|
    ensures forall k {:trigger r[k]} :: 0 <= k < |r| ==> r[k] == if d <= k < d + n then src[at + (k - d)] else dst[k]
  {
    if n == 0 then dst else Copied(dst, d, src, at, n - 1)[d + n - 1 := src[at + n - 1]]
  }

  /** Reading the run lengths at a position leaves their bytes inside the encoding and the page. */
  ghost predicate HeadsOk(head: (nat, nat) -> Option<Header>, size: nat) {
    forall pos: nat, room: nat :: head(pos, room).Some? ==> HeadOk(head(pos, room).value, pos, room, size)
  }

  predicate HeadOk(h: Header, pos: nat, room: nat, size: nat) {
    0 < h.count && 0 < h.length && pos + h.length + h.count <= size && h.zrun + h.count <= room
  }

  function Heads(src: seq<Byte>): (head: (nat, nat) -> Option<Header>)
    ensures HeadsOk(head, |src|)
  {
    (pos: nat, room: nat) => HeaderAt(src, pos, room)
  }

  /** The loop of `xbzrle_decode_buffer` from position pos of the encoding and d of the page on, given
      how the run lengths are read; None is -1. */
  function DecodeFrom(head: (nat, nat) -> Option<Header>, src: seq<Byte>, pos: nat, dst: seq<Byte>,
                      d: nat): Option<seq<Byte>>
    requires HeadsOk(head, |src|) && pos <= |src| && d <= |dst|
    decreases |src| - pos
  {
    if pos == |src| then Some(dst) else
      match head(pos, |dst| - d)
      case None => None
      case Some(h) =>
        assert HeadOk(h, pos, |dst| - d, |src|);
        var at, to := pos + h.length, d + h.zrun;
        DecodeFrom(head, src, at + h.count, Copied(dst, to, src, at, h.count), to + h.count)
  }

  lemma DecodeStep(head: (nat, nat) -> Option<Header>, src: seq<Byte>, pos: nat, dst: seq<Byte>, d: nat, h: Header,
                   pos': nat, dst': seq<Byte>, d': nat)
    requires HeadsOk(head, |src|) && pos < |src| && d <= |dst| && head(pos, |dst| - d) == Some(h)
    requires HeadOk(h, pos, |dst| - d, |src|)
    requires pos' == pos + h.length + h.count && d' == d + h.zrun + h.count
    requires dst' == Copied(dst, d + h.zrun, src, pos + h.length, h.count)
    ensures DecodeFrom(head, src, pos, dst, d) == DecodeFrom(head, src, pos', dst', d')
  {
  }

  /** Where in a page of len bytes the last run ends: the runs, equal and differing, laid end to end
      from d on. */
  function RunsEnd(head: (nat, nat) -> Option<Header>, size: nat, pos: nat, len: nat, d: nat): (e: Option<nat>)
    requires HeadsOk(head, size) && pos <= size && d <= len
    ensures e.Some? ==> d <= e.value <= len
    decreases size - pos
  {
    if pos == size then Some(d) else
      match head(pos, len - d)
      case None => None
      case Some(h) =>
        assert HeadOk(h, pos, len - d, size);
        RunsEnd(head, size, pos + h.length + h.count, len, d + h.zrun + h.count)
  }

  lemma RunsStep(head: (nat, nat) -> Option<Header>, size: nat, pos: nat, len: nat, d: nat, h: Header, pos': nat,
                 d': nat)
    requires HeadsOk(head, size) && pos < size && d <= len && head(pos, len - d) == Some(h)
    requires HeadOk(h, pos, len - d, size)
    requires pos' == pos + h.length + h.count && d' == d + h.zrun + h.count
    ensures RunsEnd(head, size, pos, len, d) == RunsEnd(head, size, pos', len, d')
  {
  }

  function Decode(src: seq<Byte>, dst: seq<Byte>): Option<seq<Byte>> {
    DecodeFrom(Heads(src), src, 0, dst, 0)
  }

  /** One turn of `xbzrle_decode_buffer`: the bytes of one run are copied into the page. */
  method DecodeTurn(head: (nat, nat) -> Option<Header>, src: seq<Byte>, dst: array<Byte>, i: nat, d: nat)
    returns (ok: bool, i': nat, d': nat)
    requires HeadsOk(head, |src|) && i < |src| && d <= dst.Length
    modifies dst
    ensures ok <==> head(i, dst.Length - d).Some?
    ensures !ok ==> dst[..] == old(dst[..])
    ensures ok ==> i < i' <= |src| && d' <= dst.Length
    ensures ok ==> DecodeFrom(head, src, i, old(dst[..]), d) == DecodeFrom(head, src, i', dst[..], d')
    ensures ok ==> RunsEnd(head, |src|, i, dst.Length, d) == RunsEnd(head, |src|, i', dst.Length, d')
    ensures ok ==> d <= d' && dst[d'..] == old(dst[d'..])
  {
    var h := head(i, dst.Length - d);
    if h.None? {
      return false, i, d;
    }
    assert HeadOk(h.value, i, dst.Length - d, |src|);
    var at, to := i + h.value.length, d + h.value.zrun;
    CopyTo(dst, to, src, at, h.value.count);
    ok, i', d' := true, at + h.value.count, to + h.value.count;
    DecodeStep(head, src, i, old(dst[..]), d, h.value, i', dst[..], d');
    RunsStep(head, |src|, i, dst.Length, d, h.value, i', d');
  }

  method DecodeLoop(head: (nat, nat) -> Option<Header>, src: seq<Byte>, dst: array<Byte>) returns (ret: int)
    requires HeadsOk(head, |src|)
    modifies dst
    ensures ret >= 0 <==> DecodeFrom(head, src, 0, old(dst[..]), 0).Some?
    ensures ret >= 0 ==> dst[..] == DecodeFrom(head, src, 0, old(dst[..]), 0).value
    ensures var e := RunsEnd(head, |src|, 0, dst.Length, 0);
      ret == if e.Some? then e.value else -1
    ensures ret >= 0 ==> dst[ret..] == old(dst[ret..])
  {
    var i: nat, d: nat := 0, 0;
    while i < |src|
      invariant i <= |src| && d <= dst.Length
      invariant DecodeFrom(head, src, i, dst[..], d) == DecodeFrom(head, src, 0, old(dst[..]), 0)
      invariant RunsEnd(head, |src|, i, dst.Length, d) == RunsEnd(head, |src|, 0, dst.Length, 0)
      invariant dst[d..] == old(dst[d..])
      decreases |src| - i
    {
      var ok, i', d' := DecodeTurn(head, src, dst, i, d);
      if !ok {
        return -1;
      }
      i, d := i', d';
    }
    return d;
  }

  /** `xbzrle_decode_buffer`, which changes the page in place. */
  method DecodeBuffer(src: seq<Byte>, dst: array<Byte>) returns (ret: int)
    modifies dst
    ensures ret >= 0 <==> Decode(src, old(dst[..])).Some?
    ensures ret >= 0 ==> dst[..] == Decode(src, old(dst[..])).value
    ensures var e := RunsEnd(Heads(src), |src|, 0, dst.Length, 0);
      ret == if e.Some? then e.value else -1
    ensures ret >= 0 ==> dst[ret..] == old(dst[ret..])
  {
    ret := DecodeLoop(Heads(src), src, dst);
  }

  method CopyTo(dst: array<Byte>, d: nat, src: seq<Byte>, at: nat, n: nat)
    requires d + n <= dst.Length && at + n <= |src|
    modifies dst
    ensures dst[..] == Copied(old(dst[..]), d, src, at, n)
    ensures dst[d + n..] == old(dst[d + n..])
  {
    forall k | d <= k < d + n {
      dst[k] := src[at + (k - d)];
    }
  }

  // ---- What an encoding is ----

  /** End of the run of equal bytes that starts at i. */
  function EqualEnd(old_: seq<Byte>, new_: seq<Byte>, i: nat): (e: nat)
    requires |old_| == |new_| && i <= |new_|
    ensures i <= e <= |new_|
    ensures forall k :: i <= k < e ==> old_[k] == new_[k]
    ensures e < |new_| ==> old_[e] != new_[e]
    decreases |new_| - i
  {
    if i < |new_| && old_[i] == new_[i] then EqualEnd(old_, new_, i + 1) else i
  }

  /** End of the run of differing bytes that starts at i. */
  function DifferEnd(old_: seq<Byte>, new_: seq<Byte>, i: nat): (e: nat)
    requires |old_| == |new_| && i <= |new_|
    ensures i <= e <= |new_|
    ensures forall k :: i <= k < e ==> old_[k] != new_[k]
    ensures e < |new_| ==> old_[e] == new_[e]
    decreases |new_| - i
  {
    if i < |new_| && old_[i] != new_[i] then DifferEnd(old_, new_, i + 1) else i
  }

  /** The page is equal to its old contents up to z, and different from there to e. */
  datatype Cut = Cut(z: nat, e: nat)

  /** Where cut k begins: at the end of the one before. */
  function Begin(cuts: seq<Cut>, k: nat): nat
    requires k <= |cuts|
  {
    if k == 0 then 0 else cuts[k - 1].e
  }

  ghost predicate CutOk(old_: seq<Byte>, new_: seq<Byte>, cuts: seq<Cut>, k: nat)
    requires |old_| == |new_| && k < |cuts|
  {
    && Begin(cuts, k) <= cuts[k].z < cuts[k].e <= |new_|
    && cuts[k].z == EqualEnd(old_, new_, Begin(cuts, k)) && cuts[k].e == DifferEnd(old_, new_, cuts[k].z)
  }

  /** The cuts are the first runs of the page. */
  ghost predicate CutsOk(old_: seq<Byte>, new_: seq<Byte>, cuts: seq<Cut>)
    requires |old_| == |new_|
  {
    forall k :: 0 <= k < |cuts| ==> CutOk(old_, new_, cuts, k)
  }

  /** The cuts are all runs of the page but a last one of equal bytes. */
  ghost predicate AllCuts(old_: seq<Byte>, new_: seq<Byte>, cuts: seq<Cut>)
    requires |old_| == |new_|
  {
    && CutsOk(old_, new_, cuts) && Begin(cuts, |cuts|) <= |new_|
    && EqualEnd(old_, new_, Begin(cuts, |cuts|)) == |new_|
  }

  function CutLength(begin: int, c: Cut): int {
    UlebLength(c.z - begin) + UlebLength(c.e - c.z) + (c.e - c.z)
  }

  /** Where cut k begins in the encoding; with k the number of cuts, the encoding's length. */
  function CutPos(cuts: seq<Cut>, k: nat): int
    requires k <= |cuts|
  {
    if k == 0 then 0 else CutPos(cuts, k - 1) + CutLength(Begin(cuts, k - 1), cuts[k - 1])
  }

  /** Cut k in the encoding: both run lengths, then the bytes that differ. */
  ghost predicate CutAt(src: seq<Byte>, new_: seq<Byte>, begin: nat, c: Cut, at: int)
  {
    && 0 <= at && begin <= c.z < c.e <= |new_| <= MAX_RUN
    && var zrun, count := c.z - begin, c.e - c.z;
    Pieces(src, at, Uleb(zrun), Uleb(count), new_[c.z..c.e])
  }

  ghost predicate NthCutAt(src: seq<Byte>, new_: seq<Byte>, cuts: seq<Cut>, k: nat)
    requires k < |cuts|
  {
    CutAt(src, new_, Begin(cuts, k), cuts[k], CutPos(cuts, k))
  }

  ghost predicate CutsAt(src: seq<Byte>, new_: seq<Byte>, cuts: seq<Cut>) {
    |src| == CutPos(cuts, |cuts|) && forall k :: 0 <= k < |cuts| ==> NthCutAt(src, new_, cuts, k)
  }

  /** src is the encoding of the page against its old contents. */
  ghost predicate Encodes(old_: seq<Byte>, new_: seq<Byte>, src: seq<Byte>)
    requires |old_| == |new_|
  {
    exists cuts :: AllCuts(old_, new_, cuts) && CutsAt(src, new_, cuts)
  }

  // ---- The round trip ----

  ghost predicate EqualOn(old_: seq<Byte>, new_: seq<Byte>, from: nat, to: nat) {
    to <= |old_| == |new_| && forall k :: from <= k < to ==> old_[k] == new_[k]
  }

  /** The page is the same between the cuts. */
  ghost predicate SameBefore(old_: seq<Byte>, new_: seq<Byte>, cuts: seq<Cut>, k: nat)
    requires k < |cuts|
  {
    EqualOn(old_, new_, Begin(cuts, k), cuts[k].z)
  }

  /** dst holds the new contents up to i and the old ones from there on. */
  ghost predicate Mixed(old_: seq<Byte>, new_: seq<Byte>, dst: seq<Byte>, i: nat) {
    && |dst| == |old_| == |new_|
    && forall k {:trigger dst[k]} :: 0 <= k < |dst| ==> dst[k] == if k < i then new_[k] else old_[k]
  }

  lemma {:induction false} CutPosGrows(cuts: seq<Cut>, j: nat, k: nat)
    requires j <= k <= |cuts| && forall i :: 0 <= i < |cuts| ==> cuts[i].z < cuts[i].e
    ensures CutPos(cuts, j) + 3 * (k - j) <= CutPos(cuts, k)
    decreases k - j
  {
    if j < k {
      CutPosGrows(cuts, j, k - 1);
    }
  }

  function CutHeader(begin: nat, c: Cut): Header
    requires begin <= c.z <= c.e
  {
    Header(c.z - begin, c.e - c.z, UlebLength(c.z - begin) + UlebLength(c.e - c.z))
  }

  /** The decoder reads the run lengths of a cut. */
  lemma CutRead(src: seq<Byte>, new_: seq<Byte>, begin: nat, c: Cut, at: nat)
    requires CutAt(src, new_, begin, c, at) && (at > 0 ==> begin < c.z)
    ensures HeaderAt(src, at, |new_| - begin) == Some(CutHeader(begin, c))
  {
    var zrun, count := c.z - begin, c.e - c.z;
    UlebRoundTrip(src, at, zrun);
    UlebRoundTrip(src, at + UlebLength(zrun), count);
    HeaderIs(src, at, |new_| - begin, zrun, count);
  }

  lemma CutBody(src: seq<Byte>, new_: seq<Byte>, begin: nat, c: Cut, at: nat)
    requires CutAt(src, new_, begin, c, at)
    ensures Piece(src, at + CutHeader(begin, c).length, new_[c.z..c.e])
  {
  }

  lemma HeaderIs(src: seq<Byte>, at: nat, room: nat, zrun: nat, count: nat)
    requires 0 < count && zrun + count <= room && (at > 0 ==> 0 < zrun)
    requires at + UlebLength(zrun) + UlebLength(count) + count <= |src| && at + UlebLength(zrun) + 2 <= |src|
    requires UlebAt(src, at) == Some((zrun, UlebLength(zrun)))
    requires UlebAt(src, at + UlebLength(zrun)) == Some((count, UlebLength(count)))
    ensures HeaderAt(src, at, room) == Some(Header(zrun, count, UlebLength(zrun) + UlebLength(count)))
  {
  }

  /** A cut as a decoder sees it: its run lengths are read at its place, and its bytes follow. */
  ghost predicate SeenAt(head: (nat, nat) -> Option<Header>, src: seq<Byte>, new_: seq<Byte>, begin: nat, c: Cut,
                         at: int)
  {
    && 0 <= at && begin <= c.z < c.e <= |new_|
    && head(at, |new_| - begin) == Some(CutHeader(begin, c))
    && Piece(src, at + CutHeader(begin, c).length, new_[c.z..c.e])
  }

  lemma CutSeenAt(src: seq<Byte>, new_: seq<Byte>, begin: nat, c: Cut, at: int)
    requires CutAt(src, new_, begin, c, at) && (at > 0 ==> begin < c.z)
    ensures SeenAt(Heads(src), src, new_, begin, c, at)
  {
    CutRead(src, new_, begin, c, at);
    CutBody(src, new_, begin, c, at);
  }

  ghost predicate CutSeen(head: (nat, nat) -> Option<Header>, src: seq<Byte>, new_: seq<Byte>, cuts: seq<Cut>, k: nat)
    requires k < |cuts|
  {
    SeenAt(head, src, new_, Begin(cuts, k), cuts[k], CutPos(cuts, k))
  }

  lemma CutIsSeen(old_: seq<Byte>, new_: seq<Byte>, src: seq<Byte>, cuts: seq<Cut>, k: nat)
    requires |old_| == |new_| && k < |cuts| && CutOk(old_, new_, cuts, k) && NthCutAt(src, new_, cuts, k)
    requires k > 0 ==> CutOk(old_, new_, cuts, k - 1)
    ensures CutSeen(Heads(src), src, new_, cuts, k)
  {
    if k > 0 {
      CutsApart(old_, new_, cuts, k);
    }
    CutSeenAt(src, new_, Begin(cuts, k), cuts[k], CutPos(cuts, k));
  }

  /** Copying the bytes of a cut brings the page forward to its end. */
  lemma CutCopied(old_: seq<Byte>, new_: seq<Byte>, dst: seq<Byte>, begin: nat, c: Cut, src: seq<Byte>, at: nat)
    requires Mixed(old_, new_, dst, begin) && begin <= c.z < c.e <= |new_| && Piece(src, at, new_[c.z..c.e])
    requires EqualOn(old_, new_, begin, c.z)
    ensures Mixed(old_, new_, Copied(dst, c.z, src, at, c.e - c.z), c.e)
  {
    var n := c.e - c.z;
    var r := Copied(dst, c.z, src, at, n);
    forall k | 0 <= k < |r| ensures r[k] == if k < c.e then new_[k] else old_[k] {
      if c.z <= k < c.e {
        assert src[at..at + n][k - c.z] == new_[c.z..c.e][k - c.z];
      }
    }
  }

  /** After a run of differing bytes comes at least one equal byte, or the end. */
  lemma CutsApart(old_: seq<Byte>, new_: seq<Byte>, cuts: seq<Cut>, k: nat)
    requires |old_| == |new_| && 0 < k < |cuts| && CutOk(old_, new_, cuts, k - 1) && CutOk(old_, new_, cuts, k)
    ensures Begin(cuts, k) < cuts[k].z
  {
  }

  lemma DecodesCut(head: (nat, nat) -> Option<Header>, old_: seq<Byte>, new_: seq<Byte>, begin: nat, c: Cut, at: nat,
                   src: seq<Byte>, dst: seq<Byte>)
    returns (dst': seq<Byte>)
    requires HeadsOk(head, |src|) && begin <= c.z < c.e <= |new_| && EqualOn(old_, new_, begin, c.z)
    requires Mixed(old_, new_, dst, begin)
    requires head(at, |new_| - begin) == Some(CutHeader(begin, c))
    requires Piece(src, at + CutHeader(begin, c).length, new_[c.z..c.e])
    ensures Mixed(old_, new_, dst', c.e) && at < at + CutLength(begin, c) <= |src|
    ensures DecodeFrom(head, src, at, dst, begin) == DecodeFrom(head, src, at + CutLength(begin, c), dst', c.e)
  {
    var h := CutHeader(begin, c);
    assert HeadOk(h, at, |new_| - begin, |src|);
    dst' := Copied(dst, c.z, src, at + h.length, h.count);
    CutCopied(old_, new_, dst, begin, c, src, at + h.length);
    DecodeStep(head, src, at, dst, begin, h, at + CutLength(begin, c), dst', c.e);
  }

  /** From cut k on, the decoder brings the page to its new contents. */
  lemma {:induction false} DecodesFrom(head: (nat, nat) -> Option<Header>, old_: seq<Byte>, new_: seq<Byte>,
                                       cuts: seq<Cut>, k: nat, src: seq<Byte>, dst: seq<Byte>)
    requires HeadsOk(head, |src|) && |old_| == |new_| && k <= |cuts| && EqualOn(old_, new_, Begin(cuts, |cuts|), |new_|)
    requires |src| == CutPos(cuts, |cuts|)
    requires forall j :: 0 <= j < |cuts| ==> CutSeen(head, src, new_, cuts, j) && SameBefore(old_, new_, cuts, j)
    requires 0 <= CutPos(cuts, k) <= |src| && Begin(cuts, k) <= |new_| && Mixed(old_, new_, dst, Begin(cuts, k))
    ensures DecodeFrom(head, src, CutPos(cuts, k), dst, Begin(cuts, k)) == Some(new_)
    decreases |cuts| - k
  {
    if k == |cuts| {
      assert dst == new_;
    } else {
      assert CutSeen(head, src, new_, cuts, k) && SameBefore(old_, new_, cuts, k);
      var dst' := DecodesCut(head, old_, new_, Begin(cuts, k), cuts[k], CutPos(cuts, k), src, dst);
      DecodesFrom(head, old_, new_, cuts, k + 1, src, dst');
    }
  }

  /** The page survives the round trip. */
  lemma RoundTrip(old_: seq<Byte>, new_: seq<Byte>, src: seq<Byte>)
    requires |old_| == |new_| && Encodes(old_, new_, src)
    ensures Decode(src, old_) == Some(new_)
  {
    var cuts :| AllCuts(old_, new_, cuts) && CutsAt(src, new_, cuts);
    forall k | 0 <= k < |cuts| ensures CutSeen(Heads(src), src, new_, cuts, k) && SameBefore(old_, new_, cuts, k) {
      assert CutOk(old_, new_, cuts, k) && NthCutAt(src, new_, cuts, k);
      if k > 0 {
        var j := k - 1;
        assert CutOk(old_, new_, cuts, j);
      }
      CutIsSeen(old_, new_, src, cuts, k);
    }
    DecodesFrom(Heads(src), old_, new_, cuts, 0, src, old_);
  }

  // ---- The encoder ----

  /** 0, -1 or the bytes of `xbzrle_encode_buffer`. */
  datatype EncodeResult = Unchanged | Overflow | Encoded(bytes: seq<Byte>)

  method SkipEqual(old_: seq<Byte>, new_: seq<Byte>, start: nat) returns (i: nat)
    requires |old_| == |new_| && start <= |new_|
    ensures i == EqualEnd(old_, new_, start)
  {
    i := start;
    while i < |new_| && old_[i] == new_[i]
      invariant start <= i <= |new_| && EqualEnd(old_, new_, start) == EqualEnd(old_, new_, i)
    {
      i := i + 1;
    }
  }

  method SkipDiffering(old_: seq<Byte>, new_: seq<Byte>, start: nat) returns (i: nat)
    requires |old_| == |new_| && start <= |new_|
    ensures i == DifferEnd(old_, new_, start)
  {
    i := start;
    while i < |new_| && old_[i] != new_[i]
      invariant start <= i <= |new_| && DifferEnd(old_, new_, start) == DifferEnd(old_, new_, i)
    {
      i := i + 1;
    }
  }

  /** The runs of a page are determined: some first runs are the first of all runs. */
  lemma {:induction false} SameCuts(old_: seq<Byte>, new_: seq<Byte>, cuts: seq<Cut>, all: seq<Cut>, k: nat)
    requires |old_| == |new_| && CutsOk(old_, new_, cuts) && AllCuts(old_, new_, all) && k <= |cuts|
    ensures k <= |all| && Begin(all, k) == Begin(cuts, k) && CutPos(all, k) == CutPos(cuts, k)
  {
    if k > 0 {
      var j := k - 1;
      SameCuts(old_, new_, cuts, all, j);
      assert CutOk(old_, new_, cuts, j);
      if j < |all| {
        assert CutOk(old_, new_, all, j);
        assert all[j] == cuts[j];
      }
    }
  }

  /** An encoding is at least as long as its first runs. */
  lemma LongerThan(old_: seq<Byte>, new_: seq<Byte>, cuts: seq<Cut>, all: seq<Cut>)
    requires |old_| == |new_| && CutsOk(old_, new_, cuts) && AllCuts(old_, new_, all)
    ensures CutPos(cuts, |cuts|) <= CutPos(all, |all|)
  {
    SameCuts(old_, new_, cuts, all, |cuts|);
    forall i | 0 <= i < |all| ensures all[i].z < all[i].e {
      assert CutOk(old_, new_, all, i);
    }
    CutPosGrows(all, |cuts|, |all|);
  }

  /** No encoding fits in dlen bytes with two to spare. */
  ghost predicate TooLong(old_: seq<Byte>, new_: seq<Byte>, dlen: nat)
    requires |old_| == |new_|
  {
    forall cuts :: AllCuts(old_, new_, cuts) ==> CutPos(cuts, |cuts|) + 2 > dlen
  }

  lemma TooLongSoon(old_: seq<Byte>, new_: seq<Byte>, cuts: seq<Cut>, dlen: nat)
    requires |old_| == |new_| && CutsOk(old_, new_, cuts) && CutPos(cuts, |cuts|) + 2 > dlen
    ensures TooLong(old_, new_, dlen)
  {
    forall all | AllCuts(old_, new_, all) ensures CutPos(all, |all|) + 2 > dlen {
      LongerThan(old_, new_, cuts, all);
    }
  }

  /** The encoder after some runs. */
  ghost predicate Encoding(old_: seq<Byte>, new_: seq<Byte>, cuts: seq<Cut>, i: nat, d: seq<Byte>)
    requires |old_| == |new_|
  {
    CutsOk(old_, new_, cuts) && i == Begin(cuts, |cuts|) && CutsAt(d, new_, cuts)
  }

  lemma {:induction false} CutPosMore(cuts: seq<Cut>, c: Cut, k: nat)
    requires k <= |cuts|
    ensures CutPos(cuts + [c], k) == CutPos(cuts, k) && Begin(cuts + [c], k) == Begin(cuts, k)
  {
    if k > 0 {
      CutPosMore(cuts, c, k - 1);
    }
  }

  lemma CutsOkMore(old_: seq<Byte>, new_: seq<Byte>, cuts: seq<Cut>, c: Cut)
    requires |old_| == |new_| && CutsOk(old_, new_, cuts) && CutOk(old_, new_, cuts + [c], |cuts|)
    ensures CutsOk(old_, new_, cuts + [c])
  {
    forall k | 0 <= k <= |cuts| ensures CutOk(old_, new_, cuts + [c], k) {
      if k < |cuts| {
        assert CutOk(old_, new_, cuts, k);
        CutPosMore(cuts, c, k);
      }
    }
  }

  lemma CutAtMore(d: seq<Byte>, more: seq<Byte>, new_: seq<Byte>, begin: nat, c: Cut, at: int)
    requires CutAt(d, new_, begin, c, at)
    ensures CutAt(d + more, new_, begin, c, at)
  {
    var zrun, count := c.z - begin, c.e - c.z;
    PiecesMore(d, more, at, Uleb(zrun), Uleb(count), new_[c.z..c.e]);
  }

  lemma NthCutMore(d: seq<Byte>, more: seq<Byte>, new_: seq<Byte>, cuts: seq<Cut>, c: Cut, k: nat)
    requires k < |cuts| && NthCutAt(d, new_, cuts, k)
    ensures NthCutAt(d + more, new_, cuts + [c], k)
  {
    CutPosMore(cuts, c, k);
    CutAtMore(d, more, new_, Begin(cuts, k), cuts[k], CutPos(cuts, k));
  }

  lemma CutsAtMore(d: seq<Byte>, more: seq<Byte>, new_: seq<Byte>, cuts: seq<Cut>, c: Cut)
    requires CutsAt(d, new_, cuts) && CutAt(d + more, new_, Begin(cuts, |cuts|), c, |d|)
    requires |more| == CutLength(Begin(cuts, |cuts|), c)
    ensures CutsAt(d + more, new_, cuts + [c])
  {
    var n := |cuts|;
    CutPosMore(cuts, c, n);
    forall k | 0 <= k <= n ensures NthCutAt(d + more, new_, cuts + [c], k) {
      if k < n {
        NthCutMore(d, more, new_, cuts, c, k);
      }
    }
  }

  /** The bytes of one run. */
  function CutBytes(new_: seq<Byte>, begin: nat, c: Cut): (b: seq<Byte>)
    requires begin <= c.z < c.e <= |new_| <= MAX_RUN
    ensures |b| == CutLength(begin, c)
  {
    Uleb(c.z - begin) + Uleb(c.e - c.z) + new_[c.z..c.e]
  }

  lemma CutAppended(d: seq<Byte>, new_: seq<Byte>, begin: nat, c: Cut)
    requires begin <= c.z < c.e <= |new_| <= MAX_RUN
    ensures CutAt(d + CutBytes(new_, begin, c), new_, begin, c, |d|)
  {
    PiecesEnd(d, Uleb(c.z - begin), Uleb(c.e - c.z), new_[c.z..c.e]);
  }

  /** One run more. */
  lemma RunEncoded(old_: seq<Byte>, new_: seq<Byte>, cuts: seq<Cut>, i: nat, d: seq<Byte>, c: Cut)
    requires |old_| == |new_| <= MAX_RUN && Encoding(old_, new_, cuts, i, d) && CutOk(old_, new_, cuts + [c], |cuts|)
    requires i <= c.z < c.e <= |new_|
    ensures Encoding(old_, new_, cuts + [c], c.e, d + CutBytes(new_, i, c))
  {
    CutsOkMore(old_, new_, cuts, c);
    CutAppended(d, new_, i, c);
    CutsAtMore(d, CutBytes(new_, i, c), new_, cuts, c);
  }

  lemma FirstCutOk(old_: seq<Byte>, new_: seq<Byte>, cuts: seq<Cut>, c: Cut)
    requires |old_| == |new_| && Begin(cuts, |cuts|) <= |new_|
    requires c.z == EqualEnd(old_, new_, Begin(cuts, |cuts|)) < |new_| && c.e == DifferEnd(old_, new_, c.z)
    ensures CutOk(old_, new_, cuts + [c], |cuts|)
  {
  }

  lemma Finished(old_: seq<Byte>, new_: seq<Byte>, cuts: seq<Cut>, i: nat, d: seq<Byte>)
    requires |old_| == |new_| && Encoding(old_, new_, cuts, i, d) && i <= |new_| && EqualEnd(old_, new_, i) == |new_|
    ensures Encodes(old_, new_, d)
  {
    assert AllCuts(old_, new_, cuts);
  }

  /** One run of differing bytes, from nzrunStart on, after a run of equal ones from start on. */
  method EncodeRun(old_: seq<Byte>, new_: seq<Byte>, dlen: nat, start: nat, nzrunStart: nat, d: seq<Byte>,
                   ghost cuts: seq<Cut>)
    returns (overflow: bool, i: nat, d': seq<Byte>, ghost cuts': seq<Cut>)
    requires |old_| == |new_| <= MAX_RUN && start <= |new_| && Encoding(old_, new_, cuts, start, d)
    requires nzrunStart == EqualEnd(old_, new_, start) < |new_|
    ensures overflow ==> TooLong(old_, new_, dlen)
    ensures !overflow ==> nzrunStart < i <= |new_| && |d'| <= dlen && Encoding(old_, new_, cuts', i, d')
  {
    i := SkipDiffering(old_, new_, nzrunStart);
    ghost var c := Cut(nzrunStart, i);
    cuts' := cuts + [c];
    FirstCutOk(old_, new_, cuts, c);
    RunEncoded(old_, new_, cuts, start, d, c);
    var zrun, nzrun := Uleb(nzrunStart - start), Uleb(i - nzrunStart);
    d' := d + (zrun + nzrun + new_[nzrunStart..i]);
    overflow := |d| + |zrun| + 2 > dlen || |d| + |zrun| + |nzrun| + (i - nzrunStart) > dlen;
    if overflow {
      TooLongSoon(old_, new_, cuts', dlen);
    }
  }

  /** `xbzrle_encode_buffer` into a buffer of dlen bytes: an encoding that fits, unless the page is
      unchanged or every encoding is too long. */
  method EncodeBuffer(old_: seq<Byte>, new_: seq<Byte>, dlen: nat) returns (r: EncodeResult)
    requires |old_| == |new_| <= MAX_RUN && new_ != [] && dlen >= 2
    ensures r == Unchanged <==> old_ == new_
    ensures r.Encoded? ==> Encodes(old_, new_, r.bytes) && |r.bytes| <= dlen
    ensures r == Overflow ==> TooLong(old_, new_, dlen)
  {
    var i: nat, d: seq<Byte> := 0, [];
    ghost var cuts: seq<Cut> := [];
    while i < |new_|
      invariant 0 <= i <= |new_| && |d| <= dlen && Encoding(old_, new_, cuts, i, d) && (i > 0 ==> old_ != new_)
      decreases |new_| - i
    {
      if |d| + 2 > dlen {
        TooLongSoon(old_, new_, cuts, dlen);
        return Overflow;
      }
      var nzrunStart := SkipEqual(old_, new_, i);
      if nzrunStart == |new_| {
        if i == 0 {
          assert old_ == new_;
          return Unchanged;
        }
        Finished(old_, new_, cuts, i, d);
        return Encoded(d);
      }
      var overflow;
      overflow, i, d, cuts := EncodeRun(old_, new_, dlen, i, nzrunStart, d, cuts);
      if overflow {
        return Overflow;
      }
    }
    Finished(old_, new_, cuts, i, d);
    return Encoded(d);
  }
}
