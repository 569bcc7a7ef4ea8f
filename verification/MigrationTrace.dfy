/** Whole migrations as sequences of states: what they deliver, and exactly when they do not. */
module MigrationTrace {
  import opened Values
  import opened Migration
  import opened MigrationScan
  import opened MigrationSave
  import opened MigrationSync
  import opened MigrationRun

  /** What happens between setup and completion, in any order. */
  datatype Phase = Guest(w: Write) | Poll(maxSize: nat) | Round(plan: seq<Instant>)

  ghost predicate PhaseOk(p: Phase) {
    match p
    case Guest(w) => WriteOk(w)
    case Poll(_) => true
    case Round(plan) => PlanOk(plan)
  }

  function PhaseWrites(p: Phase): seq<Write> {
    match p
    case Guest(w) => [w]
    case Poll(_) => []
    case Round(plan) => PlanWrites(plan, |plan|)
  }

  /** The guest's writes in the first k phases. */
  function RunWrites(phases: seq<Phase>, k: nat): seq<Write>
    requires k <= |phases|
  {
    if k == 0 then [] else RunWrites(phases, k - 1) + PhaseWrites(phases[k - 1])
  }

  /** The state after setup. */
  ghost predicate Started(src: map<nat, Content>, dst: map<nat, Content>, s: State) {
    && Inv(s, false) && s.src == src && s.dst == dst == s.base && s.sent == [] && s.lost == {}
    && s.seen == None && s.bulk && forall p: nat :: IsPage(p) ==> p in s.bitmap && p !in s.log
  }

  /** What a phase does to the state. A page is lost by a round only, and then it is the lone cursor
      page of the state the round begins in. */
  ghost predicate Step(s: State, p: Phase, t: State) {
    && Inv(s, false) && Inv(t, false) && CursorOk(s) && t.base == s.base
    && t.src == AfterWrites(s.src, PhaseWrites(p))
    && match p
       case Guest(w) => t == Wrote(s, w)
       case Poll(maxSize) => if |Marked(s.bitmap)| * PAGE_SIZE < maxSize then Synced(s, t) else t == s
       case Round(plan) =>
         var writes := PlanWrites(plan, |plan|);
         && t.log == s.log + Touched(writes) && t.bitmap <= s.bitmap && SameBut(s, t, s.bitmap)
         && if plan == [] then t == s else
              && Rested(t) && t.lost == s.lost + Dropped(s) - Touched(writes)
              && (CursorPageOnly(s) ==> t.dst == s.dst && AllClean(t.bitmap))
  }

  lemma RoundStep(s: State, mid: State, t: State, plan: seq<Instant>, ran: nat, sent: bool, rest: seq<Write>)
    requires Inv(s, false) && ran <= |plan| && (plan != [] ==> ran > 0)
    requires RoundResult(s, mid, PlanWrites(plan, ran), ran, sent) && t == Guested(mid, rest) && Inv(t, false)
    requires PlanWrites(plan, |plan|) == PlanWrites(plan, ran) + rest
    ensures Step(s, Round(plan), t)
  {
    var done := PlanWrites(plan, ran);
    AfterBoth(s.src, done, rest);
    TouchedBoth(done, rest);
    if plan == [] {
      assert rest == [];
      GuestedNothing(mid);
    } else {
      var a, b, lost := Touched(done), Touched(rest), s.lost + Dropped(s);
      assert lost - (a + b) == lost - a - b;
    }
  }

  /** A phase on the program's state. */
  method RunPhase(m: RamMigration, p: Phase)
    requires Inv(m.st, false) && PhaseOk(p)
    modifies m
    ensures Step(old(m.st), p, m.st)
  {
    ghost var s := m.st;
    match p
    case Guest(w) =>
      m.GuestWrite(w);
      assert [w][..0] == [];
    case Poll(maxSize) =>
      var _ := m.SavePending(maxSize);
    case Round(plan) =>
      var sent, ran := m.Iterate(plan);
      ghost var mid := m.st;
      ghost var rest;
      m.st, rest := LaterWrites(m.st, plan, ran);
      RoundStep(s, mid, m.st, plan, ran, sent, rest);
  }

  // ---- Which pages are lost ----

  /** The states in which setup ends and each phase ends; phase k begins in state k. */
  ghost predicate TraceOk(src: map<nat, Content>, dst: map<nat, Content>, phases: seq<Phase>, trace: seq<State>) {
    && |trace| == |phases| + 1 && Started(src, dst, trace[0])
    && forall k :: 0 <= k < |phases| ==> NthStep(phases, trace, k)
  }

  ghost predicate NthStep(phases: seq<Phase>, trace: seq<State>, k: nat)
    requires k < |phases| && |trace| == |phases| + 1
  {
    Step(trace[k], phases[k], trace[k + 1])
  }

  /** A lost page is marked nowhere. */
  ghost predicate Settled(s: State) {
    s.lost !! s.log && s.lost !! s.bitmap
  }

  lemma StepSettled(s: State, p: Phase, t: State)
    requires Step(s, p, t) && Settled(s)
    ensures Settled(t)
  {
    if p.Round? && p.plan != [] && CursorPageOnly(s) {
      var q := Page(s.seen.value, s.offset);
      assert InBlock(s.seen.value, q);
      AllCleanMeans(t.bitmap);
    }
  }

  lemma {:induction false} TraceSettled(src: map<nat, Content>, dst: map<nat, Content>, phases: seq<Phase>,
                                        trace: seq<State>, k: nat)
    requires TraceOk(src, dst, phases, trace) && k < |trace|
    ensures Settled(trace[k]) && Inv(trace[k], false) && CursorOk(trace[k])
  {
    if k > 0 {
      TraceSettled(src, dst, phases, trace, k - 1);
      assert NthStep(phases, trace, k - 1);
      StepSettled(trace[k - 1], phases[k - 1], trace[k]);
    }
  }

  /** The guest does not write the page in phases j to k - 1. */
  ghost predicate Untouched(phases: seq<Phase>, j: nat, k: nat, p: nat)
    requires k <= |phases|
  {
    forall i :: j <= i < k ==> p !in Touched(PhaseWrites(phases[i]))
  }

  /** Phase j begins with a search that drops the page, and the guest does not write it from then on
      up to phase k. */
  ghost predicate DroppedAt(phases: seq<Phase>, trace: seq<State>, j: nat, k: nat, p: nat)
    requires |trace| == |phases| + 1 && j < k <= |phases|
  {
    && phases[j].Round? && phases[j].plan != [] && CursorOk(trace[j]) && p in Dropped(trace[j])
    && Untouched(phases, j, k, p)
  }

  /** What one phase adds to the lost pages and takes from them. */
  lemma StepLost(s: State, x: Phase, t: State, p: nat)
    requires Step(s, x, t)
    ensures p in t.lost <==>
      (p in s.lost || (x.Round? && x.plan != [] && p in Dropped(s))) && p !in Touched(PhaseWrites(x))
  {
    if x.Guest? {
      assert Touched(PhaseWrites(x)) == {x.w.page};
    } else if x.Round? && x.plan == [] {
      assert Touched(PhaseWrites(x)) == {};
    }
  }

  /** A page is lost exactly if some search dropped it and the guest has not written it since. */
  lemma {:induction false} LostExactly(src: map<nat, Content>, dst: map<nat, Content>, phases: seq<Phase>,
                                       trace: seq<State>, k: nat, p: nat)
    requires TraceOk(src, dst, phases, trace) && k <= |phases|
    ensures p in trace[k].lost <==> exists j :: 0 <= j < k && DroppedAt(phases, trace, j, k, p)
  {
    if k > 0 {
      var i := k - 1;
      LostExactly(src, dst, phases, trace, i, p);
      assert NthStep(phases, trace, i);
      StepLost(trace[i], phases[i], trace[k], p);
      if p in trace[k].lost {
        if p in trace[i].lost {
          var j :| 0 <= j < i && DroppedAt(phases, trace, j, i, p);
          assert DroppedAt(phases, trace, j, k, p);
        } else {
          assert DroppedAt(phases, trace, i, k, p);
        }
      }
      if j :| 0 <= j < k && DroppedAt(phases, trace, j, k, p) {
        assert p !in Touched(PhaseWrites(phases[i]));
        if j < i {
          assert DroppedAt(phases, trace, j, i, p);
        }
      }
    }
  }

  lemma {:induction false} UntouchedKeeps(m: map<nat, Content>, writes: seq<Write>, p: nat)
    requires p !in Touched(writes)
    ensures p in AfterWrites(m, writes) <==> p in m
    ensures p in m ==> AfterWrites(m, writes)[p] == m[p]
  {
    if writes != [] {
      var n := |writes| - 1;
      assert writes[n] in writes && writes == writes[..n] + [writes[n]];
      TouchedBoth(writes[..n], [writes[n]]);
      UntouchedKeeps(m, writes[..n], p);
      assert writes[n].page in Touched(writes);
    }
  }

  /** On both sides the page is as it was. */
  ghost predicate SameThere(s: State, t: State, p: nat) {
    && (p in s.src && p in s.dst ==> p in t.src && p in t.dst && t.src[p] == s.src[p] && t.dst[p] == s.dst[p])
  }

  /** A page the guest does not write, and that is not marked or being dropped, stays as it is. */
  lemma StepKeeps(s: State, x: Phase, t: State, p: nat)
    requires Step(s, x, t) && p !in Touched(PhaseWrites(x))
    requires p !in s.bitmap || (x.Round? && x.plan != [] && p in Dropped(s))
    ensures SameThere(s, t, p)
  {
    UntouchedKeeps(s.src, PhaseWrites(x), p);
  }

  lemma {:induction false} DroppedKeeps(src: map<nat, Content>, dst: map<nat, Content>, phases: seq<Phase>,
                                        trace: seq<State>, j: nat, k: nat, p: nat)
    requires TraceOk(src, dst, phases, trace) && j < k <= |phases| && DroppedAt(phases, trace, j, k, p)
    ensures SameThere(trace[j], trace[k], p)
    decreases k - j
  {
    var i := k - 1;
    assert p !in Touched(PhaseWrites(phases[i]));
    if j < i {
      assert DroppedAt(phases, trace, j, i, p);
      DroppedKeeps(src, dst, phases, trace, j, i, p);
      LostExactly(src, dst, phases, trace, i, p);
      LostKeeps(src, dst, phases, trace, i, p);
    } else {
      DropKeeps(src, dst, phases, trace, i, p);
    }
  }

  lemma LostKeeps(src: map<nat, Content>, dst: map<nat, Content>, phases: seq<Phase>, trace: seq<State>, i: nat, p: nat)
    requires TraceOk(src, dst, phases, trace) && i < |phases| && p in trace[i].lost
    requires p !in Touched(PhaseWrites(phases[i]))
    ensures SameThere(trace[i], trace[i + 1], p)
  {
    TraceSettled(src, dst, phases, trace, i);
    assert NthStep(phases, trace, i);
    StepKeeps(trace[i], phases[i], trace[i + 1], p);
  }

  lemma DropKeeps(src: map<nat, Content>, dst: map<nat, Content>, phases: seq<Phase>, trace: seq<State>, i: nat, p: nat)
    requires TraceOk(src, dst, phases, trace) && i < |phases| && DroppedAt(phases, trace, i, i + 1, p)
    ensures SameThere(trace[i], trace[i + 1], p)
  {
    assert NthStep(phases, trace, i) && p !in Touched(PhaseWrites(phases[i]));
    StepKeeps(trace[i], phases[i], trace[i + 1], p);
  }

  // ---- What a migration delivers ----

  ghost function CursorPage(s: State): nat
    requires CursorOk(s) && s.seen.Some?
  {
    Page(s.seen.value, s.offset)
  }

  /** The search that begins phase j, or completion after the last phase, drops a page whose contents
      differ and that the guest does not write again. */
  ghost predicate LosesAt(phases: seq<Phase>, trace: seq<State>, j: nat)
    requires |trace| == |phases| + 1 && j <= |phases|
  {
    var s := trace[j];
    && CursorOk(s)
    && if j == |phases| then CursorPageOnly(Pending(s)) && !SamePage(s, CursorPage(s))
       else
         && phases[j].Round? && phases[j].plan != [] && CursorPageOnly(s) && !SamePage(s, CursorPage(s))
         && CursorPage(s) !in s.log && Untouched(phases, j, |phases|, CursorPage(s))
  }

  lemma CursorIsPage(s: State)
    requires CursorOk(s) && s.seen.Some? && s.bulk
    ensures IsPage(CursorPage(s))
  {
    assert InBlock(s.seen.value, CursorPage(s));
  }

  lemma LossShows(src: map<nat, Content>, dst: map<nat, Content>, phases: seq<Phase>, trace: seq<State>, s: State,
                  j: nat)
    requires TraceOk(src, dst, phases, trace) && CompleteResult(trace[|phases|], s)
    requires j <= |phases| && LosesAt(phases, trace, j)
    ensures !SameRam(s)
  {
    var n, p := |phases|, CursorPage(trace[j]);
    CursorIsPage(trace[j]);
    TraceSettled(src, dst, phases, trace, j);
    if j < n {
      assert DroppedAt(phases, trace, j, n, p);
      DroppedKeeps(src, dst, phases, trace, j, n, p);
      LostExactly(src, dst, phases, trace, n, p);
      TraceSettled(src, dst, phases, trace, n);
    }
    assert SameThere(trace[j], s, p);
  }

  /** A migration delivers all of RAM exactly if none of its searches begins with the lone cursor page
      while that page differs and is not written again. */
  lemma DeliversIff(src: map<nat, Content>, dst: map<nat, Content>, phases: seq<Phase>, trace: seq<State>, s: State)
    requires TraceOk(src, dst, phases, trace) && CompleteResult(trace[|phases|], s)
    ensures SameRam(s) <==> forall j :: 0 <= j <= |phases| ==> !LosesAt(phases, trace, j)
  {
    var n := |phases|;
    if j :| 0 <= j <= n && LosesAt(phases, trace, j) {
      LossShows(src, dst, phases, trace, s, j);
    } else if !SameRam(s) {
      var p: nat :| IsPage(p) && !SamePage(s, p);
      DifferingIsLost(src, dst, phases, trace, s, p);
    }
  }

  lemma DifferingIsLost(src: map<nat, Content>, dst: map<nat, Content>, phases: seq<Phase>, trace: seq<State>,
                        s: State, p: nat)
    requires TraceOk(src, dst, phases, trace) && CompleteResult(trace[|phases|], s) && IsPage(p) && !SamePage(s, p)
    ensures exists j :: 0 <= j <= |phases| && LosesAt(phases, trace, j)
  {
    var n := |phases|;
    TraceSettled(src, dst, phases, trace, n);
    if p in trace[n].lost {
      LostExactly(src, dst, phases, trace, n, p);
      var j :| 0 <= j < n && DroppedAt(phases, trace, j, n, p);
      DroppedKeeps(src, dst, phases, trace, j, n, p);
      TraceSettled(src, dst, phases, trace, j);
      assert SameThere(trace[j], s, p);
      assert LosesAt(phases, trace, j);
    } else {
      assert LosesAt(phases, trace, n);
    }
  }

  // ---- A condition on the input alone ----

  /** The one page that can be lost: the last page of the last block, if that has another. */
  function LastPage(): set<nat> {
    var b := |BLOCKS| - 1;
    if BLOCKS[b].pages == 1 then {} else {Page(b, BLOCKS[b].pages - 1)}
  }

  lemma LoneIsLast(s: State)
    requires Inv(s, false)
    ensures CursorPageOnly(s) ==> CursorPage(s) in LastPage()
    ensures CursorPageOnly(Pending(s)) ==> CursorPage(s) in LastPage()
  {
    CursorPageOnlyExactly(s, false);
    if CursorPageOnly(Pending(s)) {
      var b := |BLOCKS| - 1;
      assert InBlock(s.seen.value, CursorPage(s));
      if s.seen.value < b {
        PagesDiffer(b, 0, s.seen.value, s.offset);
        assert InBlock(b, Page(b, 0));
      } else if s.offset + 1 < BLOCKS[b].pages {
        assert InBlock(b, Page(b, s.offset + 1));
      }
    }
  }

  /** The last page is not in the log, and not marked while it is the cursor page. */
  ghost predicate LastQuiet(s: State) {
    && CursorOk(s) && LastPage() !! s.log
    && (s.bulk && s.seen.Some? && CursorPage(s) in LastPage() ==> CursorPage(s) !in s.bitmap)
  }

  ghost predicate AvoidsLast(phases: seq<Phase>) {
    forall k :: 0 <= k < |phases| ==> Touched(PhaseWrites(phases[k])) !! LastPage()
  }

  lemma StepQuiet(s: State, x: Phase, t: State)
    requires Step(s, x, t) && LastQuiet(s) && Touched(PhaseWrites(x)) !! LastPage()
    ensures LastQuiet(t)
  {
    if x.Guest? {
      assert x.w.page in Touched(PhaseWrites(x));
    }
  }

  lemma {:induction false} TraceQuiet(src: map<nat, Content>, dst: map<nat, Content>, phases: seq<Phase>,
                                      trace: seq<State>, k: nat)
    requires TraceOk(src, dst, phases, trace) && AvoidsLast(phases) && k < |trace|
    ensures LastQuiet(trace[k])
  {
    if k == 0 {
      var b := |BLOCKS| - 1;
      assert InBlock(b, Page(b, BLOCKS[b].pages - 1));
    } else {
      TraceQuiet(src, dst, phases, trace, k - 1);
      assert NthStep(phases, trace, k - 1);
      StepQuiet(trace[k - 1], phases[k - 1], trace[k]);
    }
  }

  /** When the guest does not write the last page, all of RAM is delivered. */
  lemma QuietDelivers(src: map<nat, Content>, dst: map<nat, Content>, phases: seq<Phase>, trace: seq<State>, s: State)
    requires TraceOk(src, dst, phases, trace) && CompleteResult(trace[|phases|], s) && AvoidsLast(phases)
    ensures SameRam(s)
  {
    forall j | 0 <= j <= |phases| ensures !LosesAt(phases, trace, j) {
      TraceQuiet(src, dst, phases, trace, j);
      TraceSettled(src, dst, phases, trace, j);
      LoneIsLast(trace[j]);
    }
    DeliversIff(src, dst, phases, trace, s);
  }

  /** Any migration: setup, then guest writes, polls and rounds in any order, then completion. The
      source holds what the guest wrote. Both sides end with the same RAM exactly if no search of the
      run, in the states `trace`, drops a differing page for good, and always if the guest does not
      write the last page; every other page is the same in any case. */
  method Migrate(src: map<nat, Content>, dst: map<nat, Content>, log: set<nat>,
                 phases: seq<Phase>, memory: nat -> nat -> bool) returns (m: RamMigration, ghost trace: seq<State>)
    requires Memory(src) && Memory(dst) && LogWithin(log) && forall k :: 0 <= k < |phases| ==> PhaseOk(phases[k])
    ensures TraceOk(src, dst, phases, trace) && CompleteResult(trace[|phases|], m.st)
    ensures m.st.src == AfterWrites(src, RunWrites(phases, |phases|)) && m.st.dirtyPages == 0
    ensures SameRam(m.st) <==> forall j :: 0 <= j <= |phases| ==> !LosesAt(phases, trace, j)
    ensures AvoidsLast(phases) ==> SameRam(m.st)
    ensures forall p: nat :: IsPage(p) && p !in LastPage() ==> SamePage(m.st, p)
    ensures LoadAll(dst, m.st.sent) == Some(m.st.dst)
  {
    m, trace := RunPhases(src, dst, log, phases);
    m.Complete(memory);
    TraceSource(src, dst, phases, trace, |phases|);
    DeliversIff(src, dst, phases, trace, m.st);
    if AvoidsLast(phases) {
      QuietDelivers(src, dst, phases, trace, m.st);
    }
    OnlyLast(src, dst, phases, trace, m.st);
  }

  /** Setup and the phases. */
  method RunPhases(src: map<nat, Content>, dst: map<nat, Content>, log: set<nat>, phases: seq<Phase>)
    returns (m: RamMigration, ghost trace: seq<State>)
    requires Memory(src) && Memory(dst) && LogWithin(log) && forall k :: 0 <= k < |phases| ==> PhaseOk(phases[k])
    ensures fresh(m) && TraceOk(src, dst, phases, trace) && trace[|phases|] == m.st && Inv(m.st, false)
  {
    m := new RamMigration(src, dst, log);
    trace := [m.st];
    ghost var traced := (k: nat, trace: seq<State>) => k <= |phases| && TraceOk(src, dst, phases[..k], trace);
    for k := 0 to |phases|
      invariant fresh(m) && |trace| == k + 1 && trace[k] == m.st && Inv(m.st, false) && traced(k, trace)
    {
      trace := NextPhase(m, src, dst, phases, k, trace, traced);
    }
    assert phases[..|phases|] == phases;
  }

  /** The phase k; `traced` tells that a trace is one of the first phases. */
  method NextPhase(m: RamMigration, ghost src: map<nat, Content>, ghost dst: map<nat, Content>, phases: seq<Phase>,
                   k: nat, ghost trace: seq<State>, ghost traced: (nat, seq<State>) -> bool)
    returns (ghost trace': seq<State>)
    requires k < |phases| && PhaseOk(phases[k]) && Inv(m.st, false)
    requires |trace| == k + 1 && trace[k] == m.st && traced(k, trace)
    requires forall k: nat, trace {:trigger TraceOk(src, dst, phases[..k], trace)} ::
      k <= |phases| ==> (traced(k, trace) <==> TraceOk(src, dst, phases[..k], trace))
    modifies m
    ensures trace' == trace + [m.st] && Inv(m.st, false) && traced(k + 1, trace')
  {
    assert TraceOk(src, dst, phases[..k], trace);
    RunPhase(m, phases[k]);
    TraceMore(src, dst, phases[..k], trace, phases[k], m.st);
    assert phases[..k + 1] == phases[..k] + [phases[k]];
    trace' := trace + [m.st];
    assert TraceOk(src, dst, phases[..k + 1], trace');
  }

  lemma TraceMore(src: map<nat, Content>, dst: map<nat, Content>, phases: seq<Phase>, trace: seq<State>, x: Phase,
                  t: State)
    requires TraceOk(src, dst, phases, trace) && Step(trace[|phases|], x, t)
    ensures TraceOk(src, dst, phases + [x], trace + [t])
  {
    forall k | 0 <= k <= |phases| ensures NthStep(phases + [x], trace + [t], k) {
      assert k < |phases| ==> NthStep(phases, trace, k);
    }
  }

  /** A phase adds its writes to the source, and the destination's first memory stays. */
  ghost predicate SourceStep(phases: seq<Phase>, trace: seq<State>, k: nat)
    requires k < |phases| && |trace| == |phases| + 1
  {
    trace[k + 1].src == AfterWrites(trace[k].src, PhaseWrites(phases[k])) && trace[k + 1].base == trace[k].base
  }

  lemma {:induction false} SourceSteps(src: map<nat, Content>, phases: seq<Phase>, trace: seq<State>, k: nat)
    requires |trace| == |phases| + 1 && trace[0].src == src && k <= |phases|
    requires forall i :: 0 <= i < |phases| ==> SourceStep(phases, trace, i)
    ensures trace[k].src == AfterWrites(src, RunWrites(phases, k)) && trace[k].base == trace[0].base
  {
    if k > 0 {
      var i := k - 1;
      SourceSteps(src, phases, trace, i);
      assert SourceStep(phases, trace, i);
      AfterChain(src, trace[i].src, trace[k].src, RunWrites(phases, i), PhaseWrites(phases[i]));
    }
  }

  lemma TraceSource(src: map<nat, Content>, dst: map<nat, Content>, phases: seq<Phase>, trace: seq<State>, k: nat)
    requires TraceOk(src, dst, phases, trace) && k <= |phases|
    ensures trace[k].src == AfterWrites(src, RunWrites(phases, k)) && trace[k].base == dst
  {
    forall i | 0 <= i < |phases| ensures SourceStep(phases, trace, i) {
      assert NthStep(phases, trace, i);
    }
    SourceSteps(src, phases, trace, k);
  }

  lemma AfterChain(m: map<nat, Content>, m1: map<nat, Content>, m2: map<nat, Content>, a: seq<Write>, b: seq<Write>)
    requires m1 == AfterWrites(m, a) && m2 == AfterWrites(m1, b)
    ensures m2 == AfterWrites(m, a + b)
  {
    AfterBoth(m, a, b);
  }

  lemma OnlyLast(src: map<nat, Content>, dst: map<nat, Content>, phases: seq<Phase>, trace: seq<State>, s: State)
    requires TraceOk(src, dst, phases, trace) && CompleteResult(trace[|phases|], s)
    ensures forall p: nat :: IsPage(p) && p !in LastPage() ==> SamePage(s, p)
  {
    var n := |phases|;
    forall p: nat | p in s.lost ensures p in LastPage() {
      TraceSettled(src, dst, phases, trace, n);
      LoneIsLast(trace[n]);
      if p in trace[n].lost {
        LostExactly(src, dst, phases, trace, n, p);
        var j :| 0 <= j < n && DroppedAt(phases, trace, j, n, p);
        TraceSettled(src, dst, phases, trace, j);
        LoneIsLast(trace[j]);
      }
    }
  }

  // ---- A run that loses a page ----

  /** A turn in which the guest writes nothing. */
  function QuietTurn(): (i: Instant)
    ensures i.writes == [] && InstantOk(i)
  {
    var zero := ZeroPage();
    Instant([], (p: nat) => Reads(zero, zero, zero), (p: nat) => true)
  }

  lemma {:induction false} QuietPlan(plan: seq<Instant>, k: nat)
    requires k <= |plan| && forall i :: 0 <= i < |plan| ==> plan[i].writes == []
    ensures PlanWrites(plan, k) == []
  {
    if k > 0 {
      QuietPlan(plan, k - 1);
    }
  }

  /** The bulk stage has sent every page: the cursor is on the last one, and both sides are the same. */
  ghost predicate BulkDone(s: State) {
    var b := |BLOCKS| - 1;
    && Inv(s, false) && s.bulk && s.seen == Some(b) && s.offset == BLOCKS[b].pages - 1
    && SameRam(s) && forall p: nat :: IsPage(p) ==> p !in s.bitmap && p !in s.log
  }

  /** The cursor after as many turns as there are pages. */
  lemma CursorLast(s: State)
    requires CursorOk(s) && s.bulk && Progress(s) == TotalPages(|BLOCKS|)
    ensures s.seen == Some(|BLOCKS| - 1) && s.offset == BLOCKS[|BLOCKS| - 1].pages - 1
  {
    var b := |BLOCKS| - 1;
    TotalGrows(1, |BLOCKS|);
    if s.seen.Some? && s.seen.value < b {
      TotalGrows(s.seen.value + 1, b);
    }
  }

  lemma NothingMarked(bitmap: set<nat>)
    requires |Marked(bitmap)| == 0
    ensures forall p: nat :: IsPage(p) ==> p !in bitmap
  {
    forall p: nat | IsPage(p) ensures p !in bitmap {
      assert p !in Marked(bitmap);
    }
  }

  lemma BulkEnds(s0: State, s: State, turns: nat, sent: bool)
    requires RoundResult(s0, s, [], turns, sent) && Inv(s0, false) && s0.seen == None && s0.bulk && s0.lost == {}
    requires turns == TotalPages(|BLOCKS|) == s0.dirtyPages && forall p: nat :: IsPage(p) ==> p !in s0.log
    ensures BulkDone(s)
  {
    assert Touched([]) == {};
    CursorLast(s);
    NothingMarked(s.bitmap);
  }

  /** The guest writes the last page once more; that page alone will be marked. */
  lemma LoneAfterWrite(s: State, w: Write)
    requires BulkDone(s) && WriteOk(w) && BLOCKS[|BLOCKS| - 1].pages > 1 && w.page == CursorPage(s)
    ensures CursorPageOnly(Pending(Wrote(s, w)))
  {
  }

  /** A migration that loses a page, for every RAM list whose last block has more than one page and
      whatever the memories are: the bulk stage sends every page, the guest changes the last page,
      and completion does not send it. */
  method LosingRun(src: map<nat, Content>, dst: map<nat, Content>, log: set<nat>, w: Write, memory: nat -> nat -> bool)
    returns (m: RamMigration)
    requires Memory(src) && Memory(dst) && LogWithin(log) && WriteOk(w)
    requires BLOCKS[|BLOCKS| - 1].pages > 1 && w.page == Page(|BLOCKS| - 1, BLOCKS[|BLOCKS| - 1].pages - 1)
    requires w.data != src[w.page]
    ensures !SamePage(m.st, w.page) && !SameRam(m.st)
  {
    m := new RamMigration(src, dst, log);
    ghost var s0 := m.st;
    var n := CountPages();
    var plan := seq(n, _ => QuietTurn());
    QuietPlan(plan, n);
    var sent, ran := m.Iterate(plan);
    TotalGrows(1, |BLOCKS|);
    QuietPlan(plan, ran);
    assert ran == n by {
      assert sent;
    }
    BulkEnds(s0, m.st, n, sent);
    ghost var s1 := m.st;
    LoneAfterWrite(s1, w);
    m.GuestWrite(w);
    m.Complete(memory);
    assert SamePage(s1, w.page);
  }
}
