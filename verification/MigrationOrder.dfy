/** The order in which a search for dirty pages goes round the block list. */
module MigrationOrder {
  import opened Migration
  import opened MigrationScan

  /** A page of a block. */
  datatype Pos = Pos(block: nat, offset: nat)

  predicate IsPos(x: Pos) {
    x.block < |BLOCKS| && x.offset < BLOCKS[x.block].pages
  }

  function PageAt(x: Pos): nat
    requires x.block < |BLOCKS|
  {
    Page(x.block, x.offset)
  }

  /** A search from `start` on comes to x only after it has gone round. */
  predicate Late(start: Pos, x: Pos) {
    x.block < start.block || (x.block == start.block && x.offset < start.offset)
  }

  /** A search from `start` on comes to x before it comes to y. */
  predicate Before(start: Pos, x: Pos, y: Pos) {
    if Late(start, x) != Late(start, y) then Late(start, y)
    else x.block < y.block || (x.block == y.block && x.offset < y.offset)
  }

  /** The search from `start` on stopped at page `at`, which was marked: it cleared the marks up to and
      with that page, and no others. */
  ghost predicate StoppedAt(start: Pos, marked: set<nat>, left: set<nat>, at: Pos) {
    && IsPos(at) && PageAt(at) in marked
    && forall x :: IsPos(x) && PageAt(x) in marked ==> (PageAt(x) !in left <==> x == at || Before(start, x, at))
  }

  /** Standing at page `offset` of `block`, the search has passed x; `complete` says it has gone round. */
  predicate Passed(start: Pos, block: nat, offset: nat, complete: bool, x: Pos) {
    if !complete && block == start.block then x.block == block && start.offset <= x.offset < offset
    else
      || (x.block == start.block && start.offset <= x.offset)
      || (start.block < x.block && (complete || x.block < block))
      || (complete && x.block < block)
      || (x.block == block && x.offset < offset)
  }

  /** Marks were cleared only up to and with page `offset` of `block`. */
  ghost predicate ClearedWithin(start: Pos, marked: set<nat>, left: set<nat>, block: nat, offset: nat, complete: bool) {
    forall x :: IsPos(x) && PageAt(x) in marked && PageAt(x) !in left ==>
      Passed(start, block, offset + 1, complete, x)
  }

  /** What was passed is no longer marked. */
  lemma PassedClean(start: Pos, bitmap: set<nat>, block: nat, offset: nat, complete: bool, x: Pos)
    requires start.block < |BLOCKS| && block < |BLOCKS| && IsPos(x)
    requires Scanned(bitmap, start.block, start.offset, block, offset, complete)
    requires Passed(start, block, offset, complete, x)
    ensures PageAt(x) !in bitmap
  {
    assert BlockClean(bitmap, x.block) ==> PageAt(x) !in bitmap;
  }

  /** The search has gone round exactly if it stands where it comes only then. */
  ghost predicate InTurn(start: Pos, block: nat, offset: nat, complete: bool) {
    complete <==> Late(start, Pos(block, offset))
  }

  lemma PassedIsBefore(start: Pos, block: nat, offset: nat, complete: bool, x: Pos)
    requires InTurn(start, block, offset, complete) && (complete ==> block <= start.block)
    ensures Passed(start, block, offset, complete, x) <==> Before(start, x, Pos(block, offset))
  {
  }

  /** A search that stops at page `next` of `block`, with only what it passed cleared. */
  lemma Stops(start: Pos, marked: set<nat>, before: set<nat>, left: set<nat>, block: nat, next: nat, complete: bool)
    requires start.block < |BLOCKS| && IsPos(Pos(block, next)) && Page(block, next) in before && before <= marked
    requires InTurn(start, block, next, complete) && (complete ==> block <= start.block)
    requires Scanned(before, start.block, start.offset, block, next, complete) && left == before - {Page(block, next)}
    requires ClearedWithin(start, marked, before, block, next, complete)
    ensures StoppedAt(start, marked, left, Pos(block, next))
  {
    var at := Pos(block, next);
    forall x | IsPos(x) && PageAt(x) in marked ensures PageAt(x) !in left <==> x == at || Before(start, x, at) {
      PassedIsBefore(start, block, next, complete, x);
      if x != at {
        PagesDiffer(x.block, x.offset, block, next);
        if Before(start, x, at) {
          PassedClean(start, before, block, next, complete, x);
        }
      }
    }
  }
}
