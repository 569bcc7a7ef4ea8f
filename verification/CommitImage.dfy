/** Committing an overlay image into its backing file. */
module CommitImage {
  import opened Values

  /** The contents of one sector; an unwritten sector reads as ZERO. */
  type Sector = int
  const ZERO: Sector := 0
  const COMMIT_BUF_SECTORS: nat := 2048

  datatype Outcome = Ok | NoMedium | NotSupported | Busy | AccessDenied | IoError

  /** What may go wrong on the way: `unknown` holds the sectors at which asking for the allocation fails,
      `failAt` those whose read or write fails, and `left` is what a failed write leaves of its sectors. */
  datatype Faults = Faults(
    reopen: bool, length: bool, truncate: bool, unknown: set<nat>, failAt: set<nat>, left: seq<Sector>, makeEmpty: bool)

  /** The disk as read through the overlay: its own sectors, and the backing file elsewhere. */
  function View(present: seq<bool>, top: seq<Sector>, backing: seq<Sector>): (v: seq<Sector>)
    requires |present| == |top|
    ensures |v| == |top|
    ensures forall s :: 0 <= s < |top| ==>
      v[s] == if present[s] then top[s] else if s < |backing| then backing[s] else ZERO
  {
    seq(|top|, s requires 0 <= s < |top| =>
      if present[s] then top[s] else if s < |backing| then backing[s] else ZERO)
  }

  /** Length of the run of sectors in the same state from `sector` on, at most `limit`, of which n are
      already known. */
  function Run(present: seq<bool>, sector: nat, limit: nat, n: nat): (m: nat)
    requires 1 <= n && sector + n <= |present|
    requires forall i :: sector <= i < sector + n ==> present[i] == present[sector]
    ensures n <= m && sector + m <= |present| && (m == n || m <= limit)
    ensures forall i :: sector <= i < sector + m ==> present[i] == present[sector]
    ensures m < limit && sector + m < |present| ==> present[sector + m] != present[sector]
    decreases |present| - n
  {
    if n < limit && sector + n < |present| && present[sector + n] == present[sector]
    then Run(present, sector, limit, n + 1) else n
  }

  /** What `bdrv_is_allocated` reports of at most nb sectors, if the driver looks no further than pick. */
  function Reported(present: seq<bool>, sector: nat, nb: nat, pick: nat): (n: nat)
    requires sector < |present| && nb > 0
    ensures 1 <= n <= nb && sector + n <= |present|
    ensures forall i :: sector <= i < sector + n ==> present[i] == present[sector]
  {
    Run(present, sector, if pick < nb then pick else nb, 1)
  }

  /** Asking for the allocation succeeds wherever the copy loop, from `sector` on, does it. */
  predicate Answered(present: seq<bool>, picks: nat -> nat, unknown: set<nat>, sector: nat)
    requires sector <= |present|
    decreases |present| - sector
  {
    || sector == |present|
    || (&& sector !in unknown
        && Answered(present, picks, unknown, sector + Reported(present, sector, COMMIT_BUF_SECTORS, picks(sector))))
  }

  /** None of the n sectors fails. */
  predicate Sound(sector: nat, n: nat, failAt: set<nat>) {
    forall s :: sector <= s < sector + n ==> s !in failAt
  }

  /** Every turn of the copy loop from `sector` on succeeds. */
  predicate Copies(present: seq<bool>, picks: nat -> nat, faults: Faults, sector: nat)
    requires sector <= |present|
    decreases |present| - sector
  {
    || sector == |present|
    || (var n := Reported(present, sector, COMMIT_BUF_SECTORS, picks(sector));
        && sector !in faults.unknown && (present[sector] ==> Sound(sector, n, faults.failAt))
        && Copies(present, picks, faults, sector + n))
  }

  /** That is, every query made succeeds, and every sector the overlay holds is read and written. */
  lemma {:induction false} CopiesAll(present: seq<bool>, picks: nat -> nat, faults: Faults, sector: nat)
    requires sector <= |present|
    ensures Copies(present, picks, faults, sector) <==>
      && Answered(present, picks, faults.unknown, sector)
      && forall s :: sector <= s < |present| && present[s] ==> s !in faults.failAt
    decreases |present| - sector
  {
    if sector < |present| {
      var n := Reported(present, sector, COMMIT_BUF_SECTORS, picks(sector));
      CopiesAll(present, picks, faults, sector + n);
      if !Sound(sector, n, faults.failAt) && present[sector] {
        var s :| sector <= s < sector + n && s in faults.failAt;
        assert present[s];
      }
    }
  }

  function Overwritten(file: seq<Sector>, sector: nat, buf: seq<Sector>): (r: seq<Sector>)
    requires sector + |buf| <= |file|
    ensures |r| == |file|
    ensures forall s :: 0 <= s < |r| ==> r[s] == if sector <= s < sector + |buf| then buf[s - sector] else file[s]
  {
    file[..sector] + buf + file[sector + |buf|..]
  }

  /** The backing file once the overlay's sectors up to `sector` have been copied to it. */
  ghost predicate CopiedTo(present: seq<bool>, top: seq<Sector>, before: seq<Sector>, now: seq<Sector>, sector: nat)
    requires |present| == |top|
  {
    && |now| == |before|
    && forall s :: 0 <= s < |now| ==> now[s] == if s < |top| && s < sector && present[s] then top[s] else before[s]
  }

  lemma CopyMore(present: seq<bool>, top: seq<Sector>, before: seq<Sector>, now: seq<Sector>, next: seq<Sector>,
                 sector: nat, n: nat)
    requires |present| == |top| <= |before| && CopiedTo(present, top, before, now, sector) && 0 < n
    requires sector + n <= |top|
    requires forall i :: sector <= i < sector + n ==> present[i] == present[sector]
    requires next == if present[sector] then Overwritten(now, sector, top[sector..sector + n]) else now
    ensures CopiedTo(present, top, before, next, sector + n)
  {
  }

  /** The file changed only where the overlay has a sector of its own. */
  ghost predicate Hidden(present: seq<bool>, before: seq<Sector>, now: seq<Sector>) {
    |now| == |before| && forall s :: 0 <= s < |now| ==> now[s] == before[s] || (s < |present| && present[s])
  }

  /** Such a change does not show through the overlay. */
  lemma HiddenView(present: seq<bool>, top: seq<Sector>, before: seq<Sector>, now: seq<Sector>)
    requires |present| == |top| <= |before| && Hidden(present, before, now)
    ensures View(present, top, now) == View(present, top, before) && now[|top|..] == before[|top|..]
  {
  }

  /** Having copied all sectors shows the overlay in the backing file. */
  lemma CopiedView(present: seq<bool>, top: seq<Sector>, before: seq<Sector>, now: seq<Sector>)
    requires |present| == |top| <= |before| && CopiedTo(present, top, before, now, |top|)
    ensures now[..|top|] == View(present, top, before)
  {
  }

  class Overlay {
    var hasDriver: bool
    var hasBacking: bool
    var blocked: bool
    var canMakeEmpty: bool
    var backingReadOnly: bool
    /** The overlay: which sectors it holds, and what they are. */
    var present: seq<bool>
    var top: seq<Sector>
    var backing: seq<Sector>

    predicate Valid()
      reads this
    {
      |present| == |top|
    }

    function Contents(): seq<Sector>
      requires Valid()
      reads this
    {
      View(present, top, backing)
    }

    /** `bdrv_is_allocated`: some run of sectors in the same state, at most nb long; `pick` says
        how much of it the driver reports. None is an error. */
    method IsAllocated(sector: nat, nb: nat, pick: nat, fail: bool) returns (status: Option<bool>, n: nat)
      requires Valid() && sector < |top| && nb > 0
      ensures status.None? <==> fail
      ensures status.Some? ==> status.value == present[sector] && n == Reported(present, sector, nb, pick)
      ensures status.Some? ==> forall i :: sector <= i < sector + n ==> present[i] == status.value
    {
      status, n := None, 0;
      if fail {
        return;
      }
      n := 1;
      var limit := if pick < nb then pick else nb;
      while n < limit && sector + n < |top| && present[sector + n] == present[sector]
        invariant 1 <= n && sector + n <= |top|
        invariant forall i :: sector <= i < sector + n ==> present[i] == present[sector]
        invariant Run(present, sector, limit, n) == Reported(present, sector, nb, pick)
        decreases |top| - n
      {
        n := n + 1;
      }
      status := Some(present[sector]);
    }

    /** A read of the overlay and the write of what was read; it fails if one of the sectors does. */
    method CopyRun(sector: nat, n: nat, faults: Faults) returns (ok: bool)
      requires sector + n <= |top| <= |backing|
      modifies this`backing
      ensures ok <==> Sound(sector, n, faults.failAt)
      ensures ok ==> backing == Overwritten(old(backing), sector, top[sector..sector + n])
      ensures |backing| == old(|backing|)
      ensures forall s :: 0 <= s < |backing| && !(sector <= s < sector + n) ==> backing[s] == old(backing)[s]
    {
      ok := Sound(sector, n, faults.failAt);
      var buf := if ok then top[sector..sector + n] else if |faults.left| <= n then faults.left else faults.left[..n];
      backing := Overwritten(backing, sector, buf);
    }

    /** A turn of the copy loop. */
    method CopyTurn(sector: nat, pick: nat, faults: Faults) returns (ok: bool, n: nat)
      requires Valid() && sector < |top| <= |backing|
      modifies this`backing
      ensures ok <==>
        && sector !in faults.unknown
        && (present[sector] ==>
              Sound(sector, Reported(present, sector, COMMIT_BUF_SECTORS, pick), faults.failAt))
      ensures Hidden(present, old(backing), backing)
      ensures ok ==> n == Reported(present, sector, COMMIT_BUF_SECTORS, pick)
      ensures ok ==>
        backing == if present[sector] then Overwritten(old(backing), sector, top[sector..sector + n]) else old(backing)
    {
      var status;
      status, n := IsAllocated(sector, COMMIT_BUF_SECTORS, pick, sector in faults.unknown);
      ok := status.Some?;
      if ok && status.value {
        ok := CopyRun(sector, n, faults);
      }
    }

    /** The copy loop: every sector the overlay holds goes to the backing file. */
    method CopyPresent(picks: nat -> nat, faults: Faults) returns (ok: bool)
      requires Valid() && |top| <= |backing|
      modifies this`backing
      ensures Hidden(present, old(backing), backing)
      ensures ok ==> CopiedTo(present, top, old(backing), backing, |top|)
      ensures ok <==> Copies(present, picks, faults, 0)
    {
      var sector := 0;
      ok := true;
      while sector < |top|
        invariant 0 <= sector <= |top| && CopiedTo(present, top, old(backing), backing, sector) && ok
        invariant Copies(present, picks, faults, 0) == Copies(present, picks, faults, sector)
        decreases |top| - sector
      {
        ghost var before := backing;
        var n;
        ok, n := CopyTurn(sector, picks(sector), faults);
        if !ok {
          return;
        }
        CopyMore(present, top, old(backing), before, backing, sector, n);
        sector := sector + n;
      }
    }

    /** The loop as the rest of the commit sees it: whatever happens, reading through the overlay shows what it
        showed; success shows it in the backing file too. */
    method CopyAll(picks: nat -> nat, faults: Faults) returns (ok: bool)
      requires Valid() && |top| <= |backing|
      modifies this`backing
      ensures |backing| == old(|backing|) && backing[|top|..] == old(backing[|top|..])
      ensures Contents() == old(Contents())
      ensures ok ==> backing[..|top|] == Contents()
      ensures ok <==>
        && Answered(present, picks, faults.unknown, 0)
        && forall s :: 0 <= s < |top| && present[s] ==> s !in faults.failAt
    {
      CopiesAll(present, picks, faults, 0);
      ok := CopyPresent(picks, faults);
      HiddenView(present, top, old(backing), backing);
      if ok {
        CopiedView(present, top, old(backing), backing);
      }
    }

    /** `bdrv_commit`. Whatever happens, reading through the overlay shows what it showed; after
        success the backing file alone shows it too, over the whole length of the overlay. */
    method Commit(picks: nat -> nat, faults: Faults) returns (ret: Outcome)
      requires Valid()
      modifies this`backing, this`present
      ensures Valid() && Contents() == old(Contents())
      ensures !hasDriver ==> ret == NoMedium
      ensures hasDriver && !hasBacking ==> ret == NotSupported
      ensures hasDriver && hasBacking && blocked ==> ret == Busy
      ensures ret == Ok ==> |top| <= |backing| && backing[..|top|] == old(Contents())
      ensures ret == Ok && canMakeEmpty ==> forall s :: 0 <= s < |top| ==> !present[s]
      ensures ret != Ok || !canMakeEmpty ==> present == old(present)
      ensures ret == Ok && |top| <= old(|backing|) ==> backing[|top|..] == old(backing[|top|..])
      ensures ret == Ok <==>
        && hasDriver && hasBacking && !blocked && !(backingReadOnly && faults.reopen) && !faults.length
        && !(|top| > old(|backing|) && faults.truncate) && !(canMakeEmpty && faults.makeEmpty)
        && Answered(old(present), picks, faults.unknown, 0)
        && forall s :: 0 <= s < |top| && old(present)[s] ==> s !in faults.failAt
    {
      if !hasDriver {
        return NoMedium;
      }
      if !hasBacking {
        return NotSupported;
      }
      if blocked {
        return Busy;
      }
      if backingReadOnly && faults.reopen {
        return AccessDenied;
      }
      if faults.length {
        return IoError;
      }
      if |top| > |backing| {
        if faults.truncate {
          return IoError;
        }
        backing := backing + seq(|top| - |backing|, _ => ZERO);
      }
      assert Contents() == old(Contents());
      var ok := CopyAll(picks, faults);
      if !ok {
        return IoError;
      }
      if canMakeEmpty {
        if faults.makeEmpty {
          return IoError;
        }
        present := seq(|top|, _ => false);
        assert Contents() == backing[..|top|];
      }
      ret := Ok;
    }
  }
}
