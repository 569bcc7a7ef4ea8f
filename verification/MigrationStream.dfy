/** A migration and its stream together: loading the bytes leaves the memory the migration speaks of. */
module MigrationStream {
  import opened Values
  import opened Arith
  import opened RamStream
  import opened RamPeers
  import M = Migration
  import Run = MigrationRun
  import Trace = MigrationTrace

  /** The stream's block list describes the migrated RAM blocks, place by place. */
  ghost predicate Lists(src: Blocks) {
    |src| == |M.BLOCKS| && forall b :: 0 <= b < |src| ==> src[b].length == M.BLOCKS[b].pages * PAGE_SIZE
  }

  function BodyOf(r: M.Record): Body {
    match r
    case Zero => Fill(0)
    case Full(c) => Full(c)
    case Delta(d) => Delta(d)
  }

  /** Page o of block b as a stream record. */
  function RecordOf(b: nat, o: nat, r: M.Record): Record {
    Record(b, o * PAGE_SIZE, BodyOf(r))
  }

  /** The stream record says what was sent: page o of block b is the page, and the body is the same. */
  ghost predicate Says(r: Record, x: M.Sent) {
    exists o: nat :: r.block < |M.BLOCKS| && SaysAt(r, x, o)
  }

  ghost predicate SaysAt(r: Record, x: M.Sent, o: nat)
    requires r.block < |M.BLOCKS|
  {
    o < M.BLOCKS[r.block].pages && x.page == M.Page(r.block, o) && r == RecordOf(r.block, o, x.record)
  }

  /** The loader's memory holds the pages of the map m, each in the block of the same name. */
  ghost predicate Mirrors(mem: Ram, m: map<nat, M.Content>, src: Blocks, dst: Blocks)
    requires |src| == |M.BLOCKS|
  {
    forall b, o :: 0 <= b < |src| && 0 <= o < M.BLOCKS[b].pages ==> MirrorsPage(mem, m, src, dst, b, o)
  }

  ghost predicate MirrorsPage(mem: Ram, m: map<nat, M.Content>, src: Blocks, dst: Blocks, b: nat, o: nat)
    requires b < |src| == |M.BLOCKS|
  {
    var twin := Twin(src, dst, b);
    && twin.Some? && (twin.value, o * PAGE_SIZE) in mem && M.Page(b, o) in m
    && mem[(twin.value, o * PAGE_SIZE)] == m[M.Page(b, o)]
  }

  lemma TwinsApart(src: Blocks, dst: Blocks, a: nat, b: nat)
    requires BlocksOk(src) && NamesDiffer(src) && a < |src| && b < |src|
    requires Twin(src, dst, a).Some? && Twin(src, dst, a) == Twin(src, dst, b)
    ensures a == b
  {
    CStringId(src[a].id);
    CStringId(src[b].id);
  }

  lemma OffsetsApart(o: nat, q: nat)
    requires o * PAGE_SIZE == q * PAGE_SIZE
    ensures o == q
  {
    if o < q {
      MulMonotone(o, q, PAGE_SIZE);
    } else if q < o {
      MulMonotone(q, o, PAGE_SIZE);
    }
  }

  /** Carrying out a record of the stream does to the loader's memory what the sent record does to the
      pages. */
  lemma CarryMirrors(mem: Ram, m: map<nat, M.Content>, src: Blocks, dst: Blocks, x: M.Sent, r: Record, meant: Record,
                     o: nat)
    requires |src| == |M.BLOCKS| && BlocksOk(src) && NamesDiffer(src) && Mirrors(mem, m, src, dst)
    requires r.block < |src| && SaysAt(r, x, o) && MeantFor(src, dst, r, meant) && M.LoadOne(m, x).Some?
    ensures CarryOut(mem, meant).Some?
    ensures Mirrors(CarryOut(mem, meant).value, M.LoadOne(m, x).value, src, dst)
  {
    var m' := M.LoadOne(m, x).value;
    assert MirrorsPage(mem, m, src, dst, r.block, o);
    var mem' := CarryOut(mem, meant).value;
    forall b, q | 0 <= b < |src| && 0 <= q < M.BLOCKS[b].pages ensures MirrorsPage(mem', m', src, dst, b, q) {
      assert MirrorsPage(mem, m, src, dst, b, q);
      if b != r.block || q != o {
        M.PagesDiffer(b, q, r.block, o);
        if Twin(src, dst, b) == Twin(src, dst, r.block) {
          TwinsApart(src, dst, b, r.block);
          if q * PAGE_SIZE == o * PAGE_SIZE {
            OffsetsApart(q, o);
          }
        }
      }
    }
  }

  lemma {:induction false} PrefixLoads(m: map<nat, M.Content>, sent: seq<M.Sent>, k: nat)
    requires k <= |sent| && M.LoadAll(m, sent).Some?
    ensures M.LoadAll(m, sent[..k]).Some?
    decreases |sent| - k
  {
    if k == |sent| {
      assert sent[..k] == sent;
    } else {
      PrefixLoads(m, sent, k + 1);
      assert sent[..k + 1][..k] == sent[..k];
    }
  }

  lemma LoadNext(m: map<nat, M.Content>, sent: seq<M.Sent>, k: nat)
    requires k < |sent| && M.LoadAll(m, sent[..k]).Some?
    ensures M.LoadAll(m, sent[..k + 1]) == M.LoadOne(M.LoadAll(m, sent[..k]).value, sent[k])
  {
    assert sent[..k + 1][..k] == sent[..k];
  }

  ghost predicate AllSay(recs: Records, sent: seq<M.Sent>) {
    |recs| == |sent| && forall k :: 0 <= k < |recs| ==> Says(recs[k], sent[k])
  }

  /** Carrying out the stream's records in order does to the loader's memory what loading the sent ones
      does to the pages. */
  lemma {:induction false} CarryAllMirrors(mem: Ram, base: map<nat, M.Content>, src: Blocks, dst: Blocks,
                                           sent: seq<M.Sent>, recs: Records, meant: Records, k: nat)
    requires |src| == |M.BLOCKS| && BlocksOk(src) && NamesDiffer(src) && RecordsOk(src, recs)
    requires AllSay(recs, sent) && Meant(src, dst, recs, meant) && k <= |sent| && M.LoadAll(base, sent).Some?
    requires M.LoadAll(base, sent[..k]).Some? && Mirrors(mem, M.LoadAll(base, sent[..k]).value, src, dst)
    ensures CarryAll(CarryOut, mem, meant, k).Some?
    ensures Mirrors(CarryAll(CarryOut, mem, meant, k).value, M.LoadAll(base, sent).value, src, dst)
    decreases |sent| - k
  {
    if k == |sent| {
      assert sent[..k] == sent;
    } else {
      assert Says(recs[k], sent[k]) && MeantFor(src, dst, recs[k], meant[k]);
      var o: nat :| SaysAt(recs[k], sent[k], o);
      PrefixLoads(base, sent, k + 1);
      LoadNext(base, sent, k);
      CarryMirrors(mem, M.LoadAll(base, sent[..k]).value, src, dst, sent[k], recs[k], meant[k], o);
      CarryAllMirrors(CarryOut(mem, meant[k]).value, base, src, dst, sent, recs, meant, k + 1);
    }
  }

  // ---- Rounds ----

  /** The records of the rounds from round k on. */
  function FlatFrom(rounds: seq<Records>, k: nat): Records
    requires k <= |rounds|
    decreases |rounds| - k
  {
    if k == |rounds| then [] else rounds[k] + FlatFrom(rounds, k + 1)
  }

  lemma {:induction false} CarryRest<T>(carry: Carry<T>, mem: T, a: Records, b: Records, j: nat)
    requires j <= |b|
    ensures CarryAll(carry, mem, a + b, |a| + j) == CarryAll(carry, mem, b, j)
    decreases |b| - j
  {
    if j < |b| {
      var next := carry(mem, b[j]);
      if next.Some? {
        CarryRest(carry, next.value, a, b, j + 1);
      }
    }
  }

  lemma {:induction false} CarryBoth<T>(carry: Carry<T>, mem: T, a: Records, b: Records, k: nat)
    requires k <= |a|
    ensures CarryAll(carry, mem, a + b, k) ==
      var mid := CarryAll(carry, mem, a, k);
      if mid.None? then None else CarryAll(carry, mid.value, b, 0)
    decreases |a| - k
  {
    if k == |a| {
      CarryRest(carry, mem, a, b, 0);
    } else {
      var next := carry(mem, a[k]);
      if next.Some? {
        CarryBoth(carry, next.value, a, b, k + 1);
      }
    }
  }

  /** Round by round or all at once is the same. */
  lemma {:induction false} CarryFlat<T>(carry: Carry<T>, mem: T, rounds: seq<Records>, k: nat)
    requires k <= |rounds|
    ensures CarryRounds(carry, mem, rounds, k) == CarryAll(carry, mem, FlatFrom(rounds, k), 0)
    decreases |rounds| - k
  {
    if k < |rounds| {
      CarryBoth(carry, mem, rounds[k], FlatFrom(rounds, k + 1), 0);
      var next := CarryAll(carry, mem, rounds[k], 0);
      if next.Some? {
        CarryFlat(carry, next.value, rounds, k + 1);
      }
    }
  }

  lemma {:induction false} FlatMeant(src: Blocks, dst: Blocks, rounds: seq<Records>, meant: seq<Records>, k: nat)
    requires RoundsOk(src, rounds) && AllMeant(src, dst, rounds, meant) && k <= |rounds|
    ensures RecordsOk(src, FlatFrom(rounds, k)) && Meant(src, dst, FlatFrom(rounds, k), FlatFrom(meant, k))
    decreases |rounds| - k
  {
    if k < |rounds| {
      FlatMeant(src, dst, rounds, meant, k + 1);
      MeantBoth(src, dst, rounds[k], meant[k], FlatFrom(rounds, k + 1), FlatFrom(meant, k + 1));
    }
  }

  lemma MeantBoth(src: Blocks, dst: Blocks, a: Records, a': Records, b: Records, b': Records)
    requires RecordsOk(src, a) && RecordsOk(src, b) && Meant(src, dst, a, a') && Meant(src, dst, b, b')
    ensures RecordsOk(src, a + b) && Meant(src, dst, a + b, a' + b')
  {
    forall k | 0 <= k < |a + b| ensures MeantFor(src, dst, (a + b)[k], (a' + b')[k]) {
      if k < |a| {
        assert MeantFor(src, dst, a[k], a'[k]);
      } else {
        var j := k - |a|;
        assert MeantFor(src, dst, b[j], b'[j]);
      }
    }
  }

  /** Whatever rounds the records sent so far were cut into: the loader, reading the bytes of the stream
      with the saver's blocks in any order, ends with the memory that the migration state calls the
      destination's. */
  lemma StreamLeavesDestination(base: map<nat, M.Content>, sent: seq<M.Sent>, src: Blocks, dst: Blocks,
                                rounds: seq<Records>, stream: Bytes, cur: Option<nat>, mem: Ram)
    requires M.LoadAll(base, sent).Some? && |src| == |M.BLOCKS| && SourceOk(src) && NamesDiffer(src)
    requires NamesDiffer(dst) && HaveTwins(dst, src, 0) && RoundsOk(src, rounds) && StreamAt(stream, src, rounds)
    requires AllSay(FlatFrom(rounds, 0), sent) && Mirrors(mem, base, src, dst)
    ensures var o := Calls(Reader(dst, stream), |stream|, cur, 0, mem, 1 + |rounds|, CarryOut);
      o.ok && Mirrors(o.mem, M.LoadAll(base, sent).value, src, dst)
  {
    var meant := StreamLoads(src, dst, cur, rounds, stream, mem, CarryOut);
    CarryFlat(CarryOut, mem, meant, 0);
    FlatMeant(src, dst, rounds, meant, 0);
    assert sent[..0] == [];
    CarryAllMirrors(mem, base, src, dst, sent, FlatFrom(rounds, 0), FlatFrom(meant, 0), 0);
  }

  // ---- From end to end ----

  lemma {:induction false} LengthBelow(src: Blocks, b: nat, k: nat)
    requires k <= b < |src|
    ensures src[b].length <= Left(src, k)
    decreases |src| - k
  {
    if k < b {
      LengthBelow(src, b, k + 1);
    }
  }

  /** A page record of a block fits the stream. */
  lemma RecordFits(src: Blocks, b: nat, o: nat, r: M.Record, was: M.Content)
    requires Lists(src) && SourceOk(src) && b < |src| && o < M.BLOCKS[b].pages && M.Loadable(was, r)
    ensures RecordOk(src, RecordOf(b, o, r))
  {
    DivOfMultiple(o, PAGE_SIZE, 0);
    MulMonotone(o, M.BLOCKS[b].pages, PAGE_SIZE);
    LengthBelow(src, b, 0);
  }

  /** The block and page within it of a page number. */
  method PlaceOfPage(p: nat) returns (b: nat, o: nat)
    requires M.IsPage(p)
    ensures b < |M.BLOCKS| && o < M.BLOCKS[b].pages && M.Page(b, o) == p
  {
    for k := 0 to |M.BLOCKS|
      invariant forall j :: 0 <= j < k ==> !M.InBlock(j, p)
    {
      if M.InBlock(k, p) {
        return k, p - M.BLOCKS[k].first;
      }
    }
    assert false;
  }

  lemma {:induction false} LoadedKeys(m: map<nat, M.Content>, sent: seq<M.Sent>)
    requires M.LoadAll(m, sent).Some?
    ensures M.LoadAll(m, sent).value.Keys == m.Keys
  {
    if sent != [] {
      LoadedKeys(m, sent[..|sent| - 1]);
    }
  }

  /** The k-th record sent could be loaded over what was there then. */
  lemma SentLoadable(m: map<nat, M.Content>, sent: seq<M.Sent>, k: nat) returns (was: M.Content)
    requires M.LoadAll(m, sent).Some? && k < |sent|
    ensures sent[k].page in m && M.Loadable(was, sent[k].record)
  {
    PrefixLoads(m, sent, k);
    PrefixLoads(m, sent, k + 1);
    LoadNext(m, sent, k);
    LoadedKeys(m, sent[..k]);
    was := M.LoadAll(m, sent[..k]).value[sent[k].page];
  }

  ghost predicate OnlyPages(m: map<nat, M.Content>) {
    forall p: nat :: p in m ==> M.IsPage(p)
  }

  /** The records as the saver puts them. */
  method RecordsOf(src: Blocks, sent: seq<M.Sent>, ghost base: map<nat, M.Content>) returns (recs: Records)
    requires Lists(src) && SourceOk(src) && M.LoadAll(base, sent).Some? && OnlyPages(base)
    ensures RecordsOk(src, recs) && AllSay(recs, sent)
  {
    recs := [];
    for k := 0 to |sent|
      invariant |recs| == k && RecordsOk(src, recs) && forall j :: 0 <= j < k ==> Says(recs[j], sent[j])
    {
      ghost var was := SentLoadable(base, sent, k);
      var b, o := PlaceOfPage(sent[k].page);
      RecordFits(src, b, o, sent[k].record, was);
      var r := RecordOf(b, o, sent[k].record);
      assert SaysAt(r, sent[k], o);
      recs := recs + [r];
    }
  }

  lemma {:induction false} FlatMore(rounds: seq<Records>, recs: Records, k: nat)
    requires k <= |rounds|
    ensures FlatFrom(rounds + [recs], k) == FlatFrom(rounds, k) + recs
    decreases |rounds| - k
  {
    if k < |rounds| {
      FlatMore(rounds, recs, k + 1);
    }
  }

  /** The loader's memory holds the pages of the map m but for the last page. */
  ghost predicate MirrorsButLast(mem: Ram, m: map<nat, M.Content>, src: Blocks, dst: Blocks)
    requires |src| == |M.BLOCKS|
  {
    forall b, o :: 0 <= b < |src| && 0 <= o < M.BLOCKS[b].pages && M.Page(b, o) !in Trace.LastPage() ==>
      MirrorsPage(mem, m, src, dst, b, o)
  }

  /** Where both sides hold the same page, mirroring one is mirroring the other. */
  lemma SamePagesMirror(mem: Ram, s: M.State, src: Blocks, dst: Blocks)
    requires |src| == |M.BLOCKS| && Mirrors(mem, s.dst, src, dst)
    requires forall p: nat :: M.IsPage(p) && p !in Trace.LastPage() ==> Run.SamePage(s, p)
    ensures MirrorsButLast(mem, s.src, src, dst)
    ensures Run.SameRam(s) ==> Mirrors(mem, s.src, src, dst)
  {
    forall b, o | 0 <= b < |src| && 0 <= o < M.BLOCKS[b].pages
      ensures Run.SamePage(s, M.Page(b, o)) ==> MirrorsPage(mem, s.src, src, dst, b, o)
      ensures M.IsPage(M.Page(b, o))
    {
      assert MirrorsPage(mem, s.dst, src, dst, b, o) && M.InBlock(b, M.Page(b, o));
    }
  }

  /** The records in rounds: `cuts` says how many each round but the last one has, as far as there are so
      many. */
  method SaveRounds(saver: RamSaver, recs: Records, cuts: seq<nat>)
    requires saver.Valid() && saver.rounds == [] && RecordsOk(saver.src, recs)
    modifies saver
    ensures saver.Valid() && |saver.rounds| == |cuts| + 1 && FlatFrom(saver.rounds, 0) == recs
  {
    var at := 0;
    for k := 0 to |cuts|
      invariant at <= |recs| && saver.Valid() && |saver.rounds| == k && FlatFrom(saver.rounds, 0) == recs[..at]
    {
      var end := if at + cuts[k] <= |recs| then at + cuts[k] else |recs|;
      FlatMore(saver.rounds, recs[at..end], 0);
      saver.SaveRound(recs[at..end]);
      assert recs[..at] + recs[at..end] == recs[..end];
      at := end;
    }
    FlatMore(saver.rounds, recs[at..], 0);
    saver.SaveRound(recs[at..]);
    assert recs[..at] + recs[at..] == recs;
  }

  /** Writing the records sent so far as a stream, in any rounds, and loading it. */
  method StreamSent(base: map<nat, M.Content>, sent: seq<M.Sent>, cuts: seq<nat>, src: Blocks, dst: Blocks, mem: Ram)
    returns (loader: RamLoader, ok: bool)
    requires M.LoadAll(base, sent).Some? && OnlyPages(base)
    requires Lists(src) && SourceOk(src) && NamesDiffer(src) && NamesDiffer(dst) && HaveTwins(dst, src, 0)
    requires Mirrors(mem, base, src, dst)
    ensures ok && Mirrors(loader.mem, M.LoadAll(base, sent).value, src, dst)
  {
    var recs := RecordsOf(src, sent, base);
    var saver := new RamSaver(src);
    SaveRounds(saver, recs, cuts);
    loader := new RamLoader(mem);
    StreamLeavesDestination(base, sent, src, dst, saver.rounds, saver.out, None, mem);
    var next;
    ok, next := loader.LoadStream(dst, saver.out, 2 + |cuts|);
  }

  /** A migration over its stream: the source migrates and writes the bytes, and the loader reads them
      into its own memory, with the same blocks in any order and the records in any rounds. The
      loader's memory is then what the source has, if the guest does not write the last page, and in any
      case but for that page. */
  method MigrateOverStream(srcMem: map<nat, M.Content>, dstMem: map<nat, M.Content>, log: set<nat>,
                           phases: seq<Trace.Phase>, memory: nat -> nat -> bool, cuts: seq<nat>,
                           src: Blocks, dst: Blocks, mem: Ram)
    returns (m: Run.RamMigration, loader: RamLoader, ok: bool)
    requires Run.Memory(srcMem) && Run.Memory(dstMem) && OnlyPages(dstMem) && Run.LogWithin(log)
    requires forall k :: 0 <= k < |phases| ==> Trace.PhaseOk(phases[k])
    requires Lists(src) && SourceOk(src) && NamesDiffer(src) && NamesDiffer(dst) && HaveTwins(dst, src, 0)
    requires Mirrors(mem, dstMem, src, dst)
    ensures ok && Mirrors(loader.mem, m.st.dst, src, dst)
    ensures m.st.src == Run.AfterWrites(srcMem, Trace.RunWrites(phases, |phases|))
    ensures Trace.AvoidsLast(phases) ==> Mirrors(loader.mem, m.st.src, src, dst)
    ensures MirrorsButLast(loader.mem, m.st.src, src, dst)
  {
    ghost var trace;
    m, trace := Trace.Migrate(srcMem, dstMem, log, phases, memory);
    loader, ok := StreamSent(dstMem, m.st.sent, cuts, src, dst, mem);
    SamePagesMirror(loader.mem, m.st, src, dst);
  }
}
