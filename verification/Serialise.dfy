/** Tracked requests of a block device and the waiting protocol that serialises them.

    A request runs in its own coroutine, and coroutines switch only where one waits or does
    I/O. A step of the protocol is therefore: a request arrives and scans the list once, a
    waiting request resumes and scans again, a request that has passed its wait calls it once
    more, or a request ends. */
module Serialise {
  import opened Values

  datatype Request = Request(
    offset: nat, bytes: nat, isWrite: bool, serialising: bool,
    overlapOffset: nat, overlapBytes: nat, waitingFor: Option<nat>)

  /** `order` is the list of tracked requests, newest first; `passed` holds those whose wait has
      returned. Request numbers are never reused. */
  datatype Device = Device(
    requests: map<nat, Request>, order: seq<nat>, serialisingInFlight: nat, next: nat, passed: set<nat>)

  const INITIAL: Device := Device(map[], [], 0, 0, {})

  function AlignDown(n: nat, align: nat): (r: nat)
    requires align > 0
    ensures r <= n
  {
    n - n % align
  }

  function AlignUp(n: nat, align: nat): (r: nat)
    requires align > 0
    ensures r >= n
  {
    AlignDown(n + align - 1, align)
  }

  predicate Overlaps(r: Request, offset: nat, bytes: nat) {
    !(offset >= r.overlapOffset + r.overlapBytes) && !(r.overlapOffset >= offset + bytes)
  }

  predicate Within(i: nat, offset: nat, bytes: nat) {
    offset <= i < offset + bytes
  }

  /** Ranges overlap exactly if they have a byte in common, or one is empty and lies inside the other. */
  lemma OverlapsShares(r: Request, offset: nat, bytes: nat)
    ensures Overlaps(r, offset, bytes) <==>
      || (exists i :: Within(i, offset, bytes) && Within(i, r.overlapOffset, r.overlapBytes))
      || (bytes == 0 && r.overlapOffset < offset < r.overlapOffset + r.overlapBytes)
      || (r.overlapBytes == 0 && offset < r.overlapOffset < offset + bytes)
  {
    if Overlaps(r, offset, bytes) && bytes > 0 && r.overlapBytes > 0 {
      var i := if offset <= r.overlapOffset then r.overlapOffset else offset;
      assert Within(i, offset, bytes) && Within(i, r.overlapOffset, r.overlapBytes);
    }
  }

  /** One of the two must wait for the other. */
  predicate Conflicts(r: Request, self: Request) {
    (r.serialising || self.serialising) && Overlaps(r, self.overlapOffset, self.overlapBytes)
  }

  function NewRequest(offset: nat, bytes: nat, isWrite: bool): Request {
    Request(offset, bytes, isWrite, false, offset, bytes, None)
  }

  /** `mark_request_serialising` on the request itself. */
  function Marked(r: Request, align: nat): Request
    requires align > 0
  {
    var offset := AlignDown(r.offset, align);
    var bytes := AlignUp(r.offset + r.bytes, align) - offset;
    r.(serialising := true,
       overlapOffset := if r.overlapOffset <= offset then r.overlapOffset else offset,
       overlapBytes := if r.overlapBytes >= bytes then r.overlapBytes else bytes)
  }

  function Begin(d: Device, offset: nat, bytes: nat, isWrite: bool): Device {
    d.(requests := d.requests[d.next := NewRequest(offset, bytes, isWrite)],
       order := [d.next] + d.order,
       next := d.next + 1)
  }

  function Mark(d: Device, id: nat, align: nat): Device
    requires id in d.requests && align > 0
  {
    d.(requests := d.requests[id := Marked(d.requests[id], align)],
       serialisingInFlight := d.serialisingInFlight + if d.requests[id].serialising then 0 else 1)
  }

  predicate Blocks(d: Device, other: nat, self: nat)
    requires other in d.requests && self in d.requests
  {
    other != self && Conflicts(d.requests[other], d.requests[self]) && d.requests[other].waitingFor.None?
  }

  predicate Listed(d: Device) {
    forall k :: 0 <= k < |d.order| ==> d.order[k] in d.requests
  }

  /** The first request from position k on that `self` has to wait for. */
  function Blocker(d: Device, self: nat, k: nat): (b: Option<nat>)
    requires Listed(d) && self in d.requests && k <= |d.order|
    ensures b.Some? ==> b.value in d.order[k..] && Blocks(d, b.value, self)
    ensures b.None? ==> forall j :: k <= j < |d.order| ==> !Blocks(d, d.order[j], self)
    decreases |d.order| - k
  {
    if k == |d.order| then None
    else if Blocks(d, d.order[k], self) then Some(d.order[k])
    else Blocker(d, self, k + 1)
  }

  /** `wait_serialising_requests` up to its return or its next wait. */
  function Scan(d: Device, self: nat): Device
    requires Listed(d) && self in d.requests
  {
    if d.serialisingInFlight == 0 then d.(passed := d.passed + {self})
    else match Blocker(d, self, 0)
      case None => d.(passed := d.passed + {self})
      case Some(b) => d.(requests := d.requests[self := d.requests[self].(waitingFor := Some(b))])
  }

  function Remove(order: seq<nat>, id: nat): seq<nat> {
    if order == [] then []
    else if order[0] == id then order[1..]
    else [order[0]] + Remove(order[1..], id)
  }

  function End(d: Device, id: nat): Device
    requires id in d.requests
  {
    d.(requests := d.requests - {id},
       order := Remove(d.order, id),
       serialisingInFlight :=
         if d.requests[id].serialising && d.serialisingInFlight > 0 then d.serialisingInFlight - 1
         else d.serialisingInFlight,
       passed := d.passed - {id})
  }

  datatype Step =
    | Arrive(offset: nat, bytes: nat, isWrite: bool, align: Option<nat>)
    | Resume(id: nat)
    | Recheck(id: nat, align: Option<nat>)
    | Finish(id: nat)

  /** When a step can happen. A request resumes once the one it waits for has ended. */
  predicate Enabled(d: Device, step: Step) {
    match step
    case Arrive(_, _, _, align) => align.Some? ==> align.value > 0
    case Resume(id) =>
      id in d.requests && d.requests[id].waitingFor.Some? && d.requests[id].waitingFor.value !in d.requests
    case Recheck(id, align) =>
      id in d.passed && id in d.requests && (align.Some? ==> MarkedWith(d.requests[id], align.value))
    case Finish(id) => id in d.passed && id in d.requests
  }

  /** r was marked for this alignment before, as in the second half of a read-modify-write. */
  predicate MarkedWith(r: Request, align: nat) {
    align > 0 && Marked(r, align) == r
  }

  function Apply(d: Device, step: Step): Device
    requires Listed(d) && Enabled(d, step) && d.next !in d.requests
  {
    match step
    case Arrive(offset, bytes, isWrite, align) =>
      var d1 := Begin(d, offset, bytes, isWrite);
      Scan(if align.Some? then Mark(d1, d.next, align.value) else d1, d.next)
    case Resume(id) => Scan(Woken(d, id), id)
    case Recheck(id, align) => Scan(if align.Some? then Mark(d, id, align.value) else d, id)
    case Finish(id) => End(d, id)
  }

  function Woken(d: Device, id: nat): Device
    requires id in d.requests
  {
    d.(requests := d.requests[id := d.requests[id].(waitingFor := None)])
  }

  function CountSerialising(requests: map<nat, Request>, order: seq<nat>): nat
    requires forall k :: 0 <= k < |order| ==> order[k] in requests
  {
    if order == [] then 0
    else (if requests[order[0]].serialising then 1 else 0) + CountSerialising(requests, order[1..])
  }

  ghost predicate Distinct(s: seq<nat>) {
    forall j, k :: 0 <= j < k < |s| ==> s[j] != s[k]
  }

  lemma DistinctPrepend(x: nat, s: seq<nat>)
    requires Distinct(s) && x !in s
    ensures Distinct([x] + s)
  {
  }

  /** The list and the table agree, and the counter counts. */
  ghost predicate Consistent(d: Device) {
    && Listed(d)
    && (forall id :: id in d.requests ==> id in d.order && id < d.next)
    && Distinct(d.order)
    && d.passed <= d.requests.Keys
    && d.serialisingInFlight == CountSerialising(d.requests, d.order)
  }

  /** Where each request other than `except` stands between steps. */
  ghost predicate Settled(d: Device, id: nat)
    requires id in d.requests
  {
    match d.requests[id].waitingFor
    case None => id in d.passed
    case Some(target) =>
      && id !in d.passed && target < d.next && target != id
      && (target in d.requests ==> target in d.passed && Conflicts(d.requests[target], d.requests[id]))
  }

  /** No two conflicting requests have both passed their wait. */
  ghost predicate Safe(d: Device) {
    forall a, b :: a in d.passed && b in d.passed && a != b && a in d.requests && b in d.requests ==>
      !Conflicts(d.requests[a], d.requests[b])
  }

  ghost predicate Inv(d: Device) {
    Consistent(d) && Safe(d) && forall id :: id in d.requests ==> Settled(d, id)
  }

  /** The state in which request `self` is about to scan. */
  ghost predicate Scanning(d: Device, self: nat) {
    && Consistent(d) && Safe(d) && self in d.requests && self !in d.passed
    && d.requests[self].waitingFor.None?
    && forall id :: id in d.requests && id != self ==> Settled(d, id)
  }

  lemma {:induction false} CountUnchanged(m: map<nat, Request>, m': map<nat, Request>, order: seq<nat>)
    requires forall k :: 0 <= k < |order| ==>
      order[k] in m && order[k] in m' && m'[order[k]].serialising == m[order[k]].serialising
    ensures CountSerialising(m', order) == CountSerialising(m, order)
  {
    if order != [] {
      CountUnchanged(m, m', order[1..]);
    }
  }

  lemma {:induction false} CountZero(m: map<nat, Request>, order: seq<nat>)
    requires forall k :: 0 <= k < |order| ==> order[k] in m
    requires CountSerialising(m, order) == 0
    ensures forall k :: 0 <= k < |order| ==> !m[order[k]].serialising
  {
    if order != [] {
      CountZero(m, order[1..]);
      assert forall k :: 1 <= k < |order| ==> order[k] == order[1..][k - 1];
    }
  }

  /** The early return is sound: with no serialising request in flight nothing conflicts. */
  lemma EarlyReturnSound(d: Device, a: nat, b: nat)
    requires Consistent(d) && d.serialisingInFlight == 0 && a in d.requests && b in d.requests
    ensures !Conflicts(d.requests[a], d.requests[b])
  {
    CountZero(d.requests, d.order);
    assert a in d.order && b in d.order;
  }

  lemma NoBlockerNoConflict(d: Device, self: nat, b: nat)
    requires Scanning(d, self) && b in d.passed && b in d.requests && b != self
    requires d.serialisingInFlight == 0 || Blocker(d, self, 0).None?
    ensures !Conflicts(d.requests[b], d.requests[self])
  {
    if d.serialisingInFlight == 0 {
      EarlyReturnSound(d, b, self);
    } else {
      assert Settled(d, b);
      var j :| 0 <= j < |d.order| && d.order[j] == b;
      assert !Blocks(d, d.order[j], self);
    }
  }

  lemma ConflictsSymmetric(a: Request, b: Request)
    ensures Conflicts(a, b) == Conflicts(b, a)
  {
  }

  lemma PassSettles(d: Device, self: nat)
    requires Scanning(d, self)
    requires forall b :: b in d.passed && b in d.requests && b != self ==> !Conflicts(d.requests[b], d.requests[self])
    ensures Inv(d.(passed := d.passed + {self}))
  {
    var d' := d.(passed := d.passed + {self});
    forall id | id in d'.requests ensures Settled(d', id) {
      assert id == self || Settled(d, id);
    }
    forall a, b | a in d'.passed && b in d'.passed && a != b && a in d'.requests && b in d'.requests
      ensures !Conflicts(d'.requests[a], d'.requests[b])
    {
      ConflictsSymmetric(d.requests[a], d.requests[b]);
    }
  }

  lemma WaitSettles(d: Device, self: nat, b: nat)
    requires Scanning(d, self) && b in d.requests && Blocks(d, b, self)
    ensures Inv(d.(requests := d.requests[self := d.requests[self].(waitingFor := Some(b))]))
  {
    var d' := d.(requests := d.requests[self := d.requests[self].(waitingFor := Some(b))]);
    assert Settled(d, b);
    CountUnchanged(d.requests, d'.requests, d.order);
    forall id | id in d'.requests ensures Settled(d', id) {
      assert id == self || Settled(d, id);
    }
  }

  lemma ScanSettles(d: Device, self: nat)
    requires Scanning(d, self)
    ensures Inv(Scan(d, self))
  {
    if d.serialisingInFlight == 0 || Blocker(d, self, 0).None? {
      forall b | b in d.passed && b in d.requests && b != self ensures !Conflicts(d.requests[b], d.requests[self]) {
        NoBlockerNoConflict(d, self, b);
      }
      PassSettles(d, self);
    } else {
      WaitSettles(d, self, Blocker(d, self, 0).value);
    }
  }

  lemma CountFirst(m: map<nat, Request>, id: nat, order: seq<nat>)
    requires id in m && !m[id].serialising && forall k :: 0 <= k < |order| ==> order[k] in m
    ensures CountSerialising(m, [id] + order) == CountSerialising(m, order)
  {
    assert ([id] + order)[1..] == order;
  }

  lemma BeginListed(d: Device, offset: nat, bytes: nat, isWrite: bool)
    requires Listed(d) && forall id :: id in d.requests ==> id in d.order && id < d.next
    ensures var d' := Begin(d, offset, bytes, isWrite);
      && d.next !in d.requests && d.next !in d.order && Listed(d')
      && forall id :: id in d'.requests ==> id in d'.order && id < d'.next
  {
  }

  lemma BeginConsistent(d: Device, offset: nat, bytes: nat, isWrite: bool)
    requires Consistent(d)
    ensures d.next !in d.requests && Consistent(Begin(d, offset, bytes, isWrite))
  {
    var d' := Begin(d, offset, bytes, isWrite);
    BeginListed(d, offset, bytes, isWrite);
    CountUnchanged(d.requests, d'.requests, d.order);
    CountFirst(d'.requests, d.next, d.order);
    DistinctPrepend(d.next, d.order);
  }

  lemma BeginOthers(d: Device, offset: nat, bytes: nat, isWrite: bool)
    requires Safe(d) && d.next !in d.requests && d.passed <= d.requests.Keys
    requires forall id :: id in d.requests ==> Settled(d, id)
    ensures var d' := Begin(d, offset, bytes, isWrite);
      Safe(d') && forall id :: id in d'.requests && id != d.next ==> Settled(d', id)
  {
    var d' := Begin(d, offset, bytes, isWrite);
    forall id | id in d'.requests && id != d.next ensures Settled(d', id) {
      assert Settled(d, id);
    }
  }

  lemma BeginScanning(d: Device, offset: nat, bytes: nat, isWrite: bool)
    requires Inv(d)
    ensures d.next !in d.requests && Scanning(Begin(d, offset, bytes, isWrite), d.next)
  {
    BeginConsistent(d, offset, bytes, isWrite);
    BeginOthers(d, offset, bytes, isWrite);
  }

  lemma {:induction false} CountMarked(m: map<nat, Request>, order: seq<nat>, id: nat, r: Request)
    requires forall k :: 0 <= k < |order| ==> order[k] in m
    requires Distinct(order)
    requires id in m && r.serialising
    ensures CountSerialising(m[id := r], order)
      == CountSerialising(m, order) + if id in order && !m[id].serialising then 1 else 0
  {
    if order != [] {
      var rest := order[1..];
      if order[0] == id {
        assert id !in rest;
        CountUnchanged(m, m[id := r], rest);
      } else {
        assert id in order <==> id in rest;
        CountMarked(m, rest, id, r);
      }
    }
  }

  lemma MarkScanning(d: Device, id: nat, align: nat)
    requires Scanning(d, id) && align > 0
    ensures Scanning(Mark(d, id, align), id)
  {
    var d' := Mark(d, id, align);
    CountMarked(d.requests, d.order, id, Marked(d.requests[id], align));
    forall j | j in d'.requests && j != id ensures Settled(d', j) {
      assert Settled(d, j);
    }
  }

  lemma WokenScanning(d: Device, id: nat)
    requires Inv(d) && Enabled(d, Resume(id))
    ensures Scanning(Woken(d, id), id)
  {
    var d' := Woken(d, id);
    CountUnchanged(d.requests, d'.requests, d.order);
    assert Settled(d, id);
    forall j | j in d'.requests && j != id ensures Settled(d', j) {
      assert Settled(d, j);
    }
  }

  /** A request that has passed its wait never waits again: calling it once more, with or
      without marking for the same alignment again, changes nothing. */
  lemma RecheckIsIdle(d: Device, id: nat, align: Option<nat>)
    requires Inv(d) && Enabled(d, Recheck(id, align))
    ensures d.next !in d.requests && Apply(d, Recheck(id, align)) == d
  {
    var d1 := if align.Some? then Mark(d, id, align.value) else d;
    assert d1 == d by {
      assert d.requests[id := d.requests[id]] == d.requests;
    }
    assert d.passed + {id} == d.passed;
    assert Settled(d, id);
    forall b | b in d.requests ensures !Blocks(d, b, id) {
      assert Settled(d, b);
    }
  }

  lemma {:induction false} RemoveFacts(m: map<nat, Request>, order: seq<nat>, id: nat)
    requires forall k :: 0 <= k < |order| ==> order[k] in m
    requires Distinct(order)
    requires id in order
    ensures forall x :: x in Remove(order, id) <==> x in order && x != id
    ensures Distinct(Remove(order, id))
    ensures forall k :: 0 <= k < |Remove(order, id)| ==> Remove(order, id)[k] in m
    ensures CountSerialising(m, order) == CountSerialising(m, Remove(order, id)) + if m[id].serialising then 1 else 0
  {
    var rest := order[1..];
    assert order == [order[0]] + rest;
    if order[0] != id {
      assert id in rest;
      RemoveFacts(m, rest, id);
      var r := Remove(rest, id);
      assert Remove(order, id) == [order[0]] + r;
      assert ([order[0]] + r)[1..] == r;
      DistinctPrepend(order[0], r);
    }
  }

  lemma EndSettles(d: Device, id: nat)
    requires Inv(d) && Enabled(d, Finish(id))
    ensures Inv(End(d, id))
  {
    var d' := End(d, id);
    RemoveFacts(d.requests, d.order, id);
    CountUnchanged(d.requests, d'.requests, d'.order);
    forall j | j in d'.requests ensures Settled(d', j) {
      assert Settled(d, j);
    }
  }

  /** Every step keeps the invariant. */
  lemma StepKeepsInv(d: Device, step: Step)
    requires Inv(d) && Enabled(d, step)
    ensures d.next !in d.requests && Inv(Apply(d, step))
  {
    match step
    case Arrive(offset, bytes, isWrite, align) =>
      BeginScanning(d, offset, bytes, isWrite);
      var d1 := Begin(d, offset, bytes, isWrite);
      if align.Some? {
        MarkScanning(d1, d.next, align.value);
        ScanSettles(Mark(d1, d.next, align.value), d.next);
      } else {
        ScanSettles(d1, d.next);
      }
    case Resume(id) =>
      WokenScanning(d, id);
      ScanSettles(Woken(d, id), id);
    case Recheck(id, align) =>
      RecheckIsIdle(d, id, align);
    case Finish(id) =>
      EndSettles(d, id);
  }

  /** The state after a run; a run stops at its first step that is not enabled. */
  ghost function Run(d: Device, steps: seq<Step>): Device
    requires Inv(d)
    ensures Inv(Run(d, steps))
    decreases |steps|
  {
    if steps == [] || !Enabled(d, steps[0]) then d
    else
      StepKeepsInv(d, steps[0]);
      Run(Apply(d, steps[0]), steps[1..])
  }

  // ---- What the steps were ----

  /** The arrivals among some steps, in their order. */
  function Arrivals(steps: seq<Step>): seq<Step> {
    if steps == [] then [] else
      var last := steps[|steps| - 1];
      Arrivals(steps[..|steps| - 1]) + if last.Arrive? then [last] else []
  }

  /** The requests that some steps finish. */
  function Finished(steps: seq<Step>): set<nat> {
    if steps == [] then {} else
      var last := steps[|steps| - 1];
      Finished(steps[..|steps| - 1]) + if last.Finish? then {last.id} else {}
  }

  lemma TraceNext(steps: seq<Step>, step: Step)
    ensures Arrivals(steps + [step]) == Arrivals(steps) + if step.Arrive? then [step] else []
    ensures Finished(steps + [step]) == Finished(steps) + if step.Finish? then {step.id} else {}
  {
    assert (steps + [step])[..|steps|] == steps;
  }

  /** The request of that arrival: serialising if it came with an alignment, and then with the range of its
      whole blocks, else with the range of its bytes. */
  ghost predicate AsArrived(r: Request, step: Step) {
    && step.Arrive? && r.offset == step.offset && r.bytes == step.bytes && r.isWrite == step.isWrite
    && (r.serialising <==> step.align.Some?)
    && if step.align.Some? then
         && 0 < step.align.value
         && r.overlapOffset == AlignDown(r.offset, step.align.value)
         && r.overlapOffset + r.overlapBytes == AlignUp(r.offset + r.bytes, step.align.value)
       else
         r.overlapOffset == r.offset && r.overlapBytes == r.bytes
  }

  /** Requests are tracked from their arrival until they finish. */
  ghost predicate TracksAll(requests: map<nat, Request>, next: nat, finished: set<nat>) {
    && (forall id :: id in finished ==> id < next)
    && (forall id: nat :: id in requests <==> id < next && id !in finished)
  }

  /** Requests are numbered as they arrive. */
  ghost predicate AllAsArrived(requests: map<nat, Request>, arrivals: seq<Step>) {
    forall id :: id in requests ==> id < |arrivals| && AsArrived(requests[id], arrivals[id])
  }

  ghost predicate Traced(d: Device, steps: seq<Step>) {
    && d.next == |Arrivals(steps)| && TracksAll(d.requests, d.next, Finished(steps))
    && AllAsArrived(d.requests, Arrivals(steps))
  }

  /** A scan changes at most whom its request waits for, and that it has passed. */
  lemma ScanKeeps(d: Device, self: nat)
    requires Listed(d) && self in d.requests
    ensures var d' := Scan(d, self);
      && d'.requests.Keys == d.requests.Keys && d'.next == d.next && d.passed <= d'.passed
      && (forall id :: id in d.requests && id != self ==> d'.requests[id] == d.requests[id])
      && d'.requests[self] == d.requests[self].(waitingFor := d'.requests[self].waitingFor)
  {
  }

  /** Request r was added to the tracked ones, which may make it wait but changes no other. */
  ghost predicate Arrived(d: Device, d': Device, r: Request) {
    && d'.requests.Keys == d.requests.Keys + {d.next} && d'.next == d.next + 1 && d.passed <= d'.passed
    && (forall id :: id in d.requests && id != d.next ==> d'.requests[id] == d.requests[id])
    && d'.requests[d.next] == r.(waitingFor := d'.requests[d.next].waitingFor)
  }

  lemma ArrivalKeeps(d: Device, offset: nat, bytes: nat, isWrite: bool, align: Option<nat>)
    requires Listed(d) && d.next !in d.requests && (align.Some? ==> align.value > 0)
    ensures var r := NewRequest(offset, bytes, isWrite);
      Arrived(d, Apply(d, Arrive(offset, bytes, isWrite, align)), if align.Some? then Marked(r, align.value) else r)
  {
    var d1 := Begin(d, offset, bytes, isWrite);
    ScanKeeps(if align.Some? then Mark(d1, d.next, align.value) else d1, d.next);
  }

  lemma NewAsArrived(step: Step, waitingFor: Option<nat>)
    requires step.Arrive? && (step.align.Some? ==> step.align.value > 0)
    ensures var r := NewRequest(step.offset, step.bytes, step.isWrite);
      AsArrived((if step.align.Some? then Marked(r, step.align.value) else r).(waitingFor := waitingFor), step)
  {
    if step.align.Some? {
      MarkedRange(step.offset, step.bytes, step.isWrite, step.align.value);
    }
  }

  lemma AddAsArrived(m: map<nat, Request>, m': map<nat, Request>, arrivals: seq<Step>, step: Step)
    requires AllAsArrived(m, arrivals) && m'.Keys == m.Keys + {|arrivals|} && AsArrived(m'[|arrivals|], step)
    requires forall id :: id in m && id != |arrivals| ==> m'[id] == m[id]
    ensures AllAsArrived(m', arrivals + [step])
  {
  }

  /** The requests that stay are as they were, whomever they wait for. */
  lemma StayAsArrived(m: map<nat, Request>, m': map<nat, Request>, arrivals: seq<Step>)
    requires AllAsArrived(m, arrivals) && m'.Keys <= m.Keys
    requires forall id :: id in m' ==> m'[id] == m[id].(waitingFor := m'[id].waitingFor)
    ensures AllAsArrived(m', arrivals)
  {
  }

  lemma AddTraced(d: Device, d': Device, r: Request, steps: seq<Step>, step: Step)
    requires d.next !in d.requests && Traced(d, steps) && step.Arrive?
    requires Arrived(d, d', r) && AsArrived(d'.requests[d.next], step)
    ensures Traced(d', steps + [step])
  {
    AddAsArrived(d.requests, d'.requests, Arrivals(steps), step);
    TraceNext(steps, step);
  }

  lemma ArriveTraced(d: Device, steps: seq<Step>, step: Step)
    requires Listed(d) && d.next !in d.requests && step.Arrive? && Enabled(d, step) && Traced(d, steps)
    ensures Traced(Apply(d, step), steps + [step])
  {
    var d', r := Apply(d, step), NewRequest(step.offset, step.bytes, step.isWrite);
    ArrivalKeeps(d, step.offset, step.bytes, step.isWrite, step.align);
    NewAsArrived(step, d'.requests[d.next].waitingFor);
    AddTraced(d, d', if step.align.Some? then Marked(r, step.align.value) else r, steps, step);
  }

  lemma ResumeTraced(d: Device, steps: seq<Step>, id: nat)
    requires Listed(d) && d.next !in d.requests && Enabled(d, Resume(id)) && Traced(d, steps)
    ensures Traced(Apply(d, Resume(id)), steps + [Resume(id)])
  {
    ScanKeeps(Woken(d, id), id);
    StayAsArrived(d.requests, Apply(d, Resume(id)).requests, Arrivals(steps));
    TraceNext(steps, Resume(id));
  }

  lemma FinishTraced(d: Device, steps: seq<Step>, id: nat)
    requires Listed(d) && d.next !in d.requests && Enabled(d, Finish(id)) && Traced(d, steps)
    ensures Traced(Apply(d, Finish(id)), steps + [Finish(id)])
  {
    StayAsArrived(d.requests, Apply(d, Finish(id)).requests, Arrivals(steps));
    TraceNext(steps, Finish(id));
  }

  lemma StepTraced(d: Device, steps: seq<Step>, step: Step)
    requires Inv(d) && Enabled(d, step) && d.next !in d.requests && Traced(d, steps)
    ensures Traced(Apply(d, step), steps + [step])
  {
    match step
    case Arrive(_, _, _, _) => ArriveTraced(d, steps, step);
    case Resume(id) => ResumeTraced(d, steps, id);
    case Recheck(id, align) =>
      RecheckIsIdle(d, id, align);
      TraceNext(steps, step);
    case Finish(id) => FinishTraced(d, steps, id);
  }

  /** The device is what comes of n steps, and the next, if there is one, is not enabled. */
  ghost predicate RunsTo(d: Device, before: seq<Step>, steps: seq<Step>, n: nat)
    requires n <= |steps|
  {
    Traced(d, before + steps[..n]) && (n < |steps| ==> !Enabled(d, steps[n]))
  }

  ghost predicate TracedRun(d: Device, before: seq<Step>, steps: seq<Step>) {
    exists n :: 0 <= n <= |steps| && RunsTo(d, before, steps, n)
  }

  lemma TracedNext(d: Device, before: seq<Step>, steps: seq<Step>)
    requires steps != [] && TracedRun(d, before + [steps[0]], steps[1..])
    ensures TracedRun(d, before, steps)
  {
    var rest := steps[1..];
    var n :| 0 <= n <= |rest| && RunsTo(d, before + [steps[0]], rest, n);
    assert steps[..n + 1] == [steps[0]] + rest[..n];
    assert before + steps[..n + 1] == before + [steps[0]] + rest[..n];
    assert RunsTo(d, before, steps, n + 1);
  }

  lemma {:induction false} RunTraced(d: Device, before: seq<Step>, steps: seq<Step>)
    requires Inv(d) && Traced(d, before)
    ensures TracedRun(Run(d, steps), before, steps)
    decreases |steps|
  {
    if steps == [] || !Enabled(d, steps[0]) {
      assert before + steps[..0] == before;
      assert RunsTo(d, before, steps, 0);
    } else {
      StepKeepsInv(d, steps[0]);
      StepTraced(d, before, steps[0]);
      RunTraced(Apply(d, steps[0]), before + [steps[0]], steps[1..]);
      TracedNext(Run(d, steps), before, steps);
    }
  }

  /** In every reachable state no two conflicting requests have both passed their wait, the counter
      equals the number of serialising requests, and a request waits only for one that it conflicts
      with. The requests are those that the steps made arrive and did not finish. */
  lemma NoConflictingPair(steps: seq<Step>)
    ensures Inv(INITIAL)
    ensures var d := Run(INITIAL, steps);
      && d.serialisingInFlight == CountSerialising(d.requests, d.order)
      && forall a, b :: a in d.passed && b in d.passed && a != b ==>
           a in d.requests && b in d.requests && !Conflicts(d.requests[a], d.requests[b])
    ensures var d := Run(INITIAL, steps);
      forall a, b :: a in d.requests && b in d.requests && d.requests[a].waitingFor == Some(b) ==>
        a !in d.passed && b in d.passed && Conflicts(d.requests[b], d.requests[a])
    ensures TracedRun(Run(INITIAL, steps), [], steps)
  {
    assert Inv(INITIAL);
    RunTraced(INITIAL, [], steps);
    var d := Run(INITIAL, steps);
    forall a | a in d.requests ensures Settled(d, a) {
    }
  }

  /** Whom a request waits for is never itself waiting, so waiting chains have length one and no
      cycle; a request that exists is always able to move or waits for one that is. */
  lemma NobodyWaitsForAWaiter(d: Device, id: nat)
    requires Inv(d) && id in d.requests && d.requests[id].waitingFor.Some?
    ensures var target := d.requests[id].waitingFor.value;
      if target in d.requests then d.requests[target].waitingFor.None? && Enabled(d, Finish(target))
      else Enabled(d, Resume(id))
  {
    assert Settled(d, id);
    var target := d.requests[id].waitingFor.value;
    if target in d.requests {
      assert Settled(d, target);
    }
  }

  /** From every reachable state some schedule ends every request: there is no deadlock. */
  lemma {:induction false} Drains(d: Device) returns (steps: seq<Step>)
    requires Inv(d)
    ensures Run(d, steps).requests == map[]
    decreases d.requests.Keys, if d.passed == {} then 1 else 0
  {
    if d.requests == map[] {
      return [];
    }
    var step := NextMove(d);
    StepKeepsInv(d, step);
    var rest := Drains(Apply(d, step));
    steps := [step] + rest;
    assert steps[1..] == rest;
  }

  /** A move towards the end: finish a request that passed, or let one pass when none has. */
  lemma NextMove(d: Device) returns (step: Step)
    requires Inv(d) && d.requests != map[]
    ensures Enabled(d, step) && MovesOn(step) && d.next !in d.requests
    ensures var d' := Apply(d, step);
      || d'.requests.Keys < d.requests.Keys
      || (d'.requests.Keys == d.requests.Keys && d.passed == {} && d'.passed != {})
  {
    if d.passed != {} {
      var id :| id in d.passed;
      step := Finish(id);
      assert id in d.requests && id !in End(d, id).requests;
    } else {
      var id :| id in d.requests;
      step := Resume(id);
      ResumeAlone(d, id);
    }
  }

  /** With nobody past its wait, a request that resumes passes. */
  lemma ResumeAlone(d: Device, id: nat)
    requires Inv(d) && d.passed == {} && id in d.requests
    ensures d.next !in d.requests && Enabled(d, Resume(id)) && Apply(d, Resume(id)).passed == {id}
    ensures Apply(d, Resume(id)).requests.Keys == d.requests.Keys
  {
    assert Settled(d, id);
    WokenScanning(d, id);
    var d1 := Woken(d, id);
    forall b | b in d1.requests ensures !Blocks(d1, b, id) {
      assert b == id || Settled(d1, b);
    }
  }

  // ---- Every schedule ends ----

  /** A step that ends a request or takes up a wait that is over. Only these move on what has arrived; a
      repeated wait changes nothing. */
  predicate MovesOn(step: Step) {
    step.Resume? || step.Finish?
  }

  /** The requests whose wait is over but that have not resumed. */
  ghost function Overdue(d: Device): set<nat> {
    set id | id in d.requests && d.requests[id].waitingFor.Some? && d.requests[id].waitingFor.value !in d.requests
  }

  /** How many steps at most are left without new arrivals. */
  ghost function StepsLeft(d: Device): nat {
    |d.requests.Keys| * |d.requests.Keys| + |Overdue(d)|
  }

  lemma ResumeWorks(d: Device, id: nat)
    requires Listed(d) && Enabled(d, Resume(id)) && d.next !in d.requests
    ensures StepsLeft(Apply(d, Resume(id))) < StepsLeft(d)
  {
    var d' := Apply(d, Resume(id));
    assert d'.requests.Keys == d.requests.Keys;
    assert Overdue(d') == Overdue(d) - {id};
  }

  lemma SubsetCount(a: set<nat>, b: set<nat>)
    requires a <= b
    ensures |a| <= |b|
  {
    if a != {} {
      var x :| x in a;
      SubsetCount(a - {x}, b - {x});
    }
  }

  lemma FinishWorks(d: Device, id: nat)
    requires Listed(d) && Enabled(d, Finish(id)) && d.next !in d.requests
    ensures StepsLeft(Apply(d, Finish(id))) < StepsLeft(d)
  {
    var d' := Apply(d, Finish(id));
    var n := |d.requests.Keys|;
    assert d'.requests.Keys == d.requests.Keys - {id};
    SubsetCount(Overdue(d'), d'.requests.Keys);
    OneFewer(n - 1, |Overdue(d')|);
  }

  lemma OneFewer(n: nat, a: nat)
    requires a <= n
    ensures n * n + a < (n + 1) * (n + 1)
  {
  }

  /** The steps can be taken one after the other. */
  ghost predicate Schedule(d: Device, steps: seq<Step>)
    requires Inv(d)
    decreases |steps|
  {
    steps == [] ||
    (&& Enabled(d, steps[0]) && MovesOn(steps[0])
     && (StepKeepsInv(d, steps[0]); Schedule(Apply(d, steps[0]), steps[1..])))
  }

  /** Without new arrivals every schedule comes to its end, within a bound that the number of requests gives:
      no choice of whom to resume and whom to end first goes on for ever. */
  lemma {:induction false} SchedulesEnd(d: Device, steps: seq<Step>)
    requires Inv(d) && Schedule(d, steps)
    ensures |steps| + StepsLeft(Run(d, steps)) <= StepsLeft(d)
    ensures StepsLeft(d) <= |d.requests.Keys| * |d.requests.Keys| + |d.requests.Keys|
    decreases |steps|
  {
    SubsetCount(Overdue(d), d.requests.Keys);
    if steps != [] {
      var step := steps[0];
      StepKeepsInv(d, step);
      if step.Resume? {
        ResumeWorks(d, step.id);
      } else {
        FinishWorks(d, step.id);
      }
      SchedulesEnd(Apply(d, step), steps[1..]);
    }
  }

  /** And at its end, when no step is left to take, every request has ended. */
  lemma EndIsEmpty(d: Device)
    requires Inv(d) && forall step :: MovesOn(step) ==> !Enabled(d, step)
    ensures d.requests == map[]
  {
    if d.requests != map[] {
      var step := NextMove(d);
    }
  }

  /** Marking a second time for the same alignment changes nothing. */
  lemma MarkIdempotent(r: Request, align: nat)
    requires align > 0
    ensures MarkedWith(Marked(r, align), align)
  {
  }

  /** Marking a new request widens it to whole blocks around its bytes, no further. */
  lemma MarkedRange(offset: nat, bytes: nat, isWrite: bool, align: nat)
    requires align > 0
    ensures var r := Marked(NewRequest(offset, bytes, isWrite), align);
      && r.overlapOffset == AlignDown(offset, align) <= offset
      && r.overlapOffset + r.overlapBytes == AlignUp(offset + bytes, align) >= offset + bytes
  {
  }

  lemma EndCounts(d: Device, id: nat)
    requires Inv(d) && Enabled(d, Finish(id))
    ensures id in d.order && (d.requests[id].serialising ==> d.serialisingInFlight > 0)
    ensures Inv(End(d, id))
  {
    RemoveFacts(d.requests, d.order, id);
    EndSettles(d, id);
  }

  method RemoveFromList(order: seq<nat>, id: nat) returns (r: seq<nat>)
    requires id in order
    ensures r == Remove(order, id)
  {
    var k := 0;
    while order[k] != id
      invariant k < |order| && id in order[k..]
      invariant Remove(order, id) == order[..k] + Remove(order[k..], id)
      decreases |order| - k
    {
      RemoveSkips(order, k, id);
      assert order[k..] == [order[k]] + order[k + 1..];
      k := k + 1;
    }
    assert order[k..][1..] == order[k + 1..];
    r := order[..k] + order[k + 1..];
  }

  /** The tracked-request list as the device keeps it. */
  class BlockDevice {
    var requests: map<nat, Request>
    var order: seq<nat>
    var serialisingInFlight: nat
    var next: nat
    ghost var passed: set<nat>

    ghost function D(): Device
      reads this
    {
      Device(requests, order, serialisingInFlight, next, passed)
    }

    constructor ()
      ensures D() == INITIAL && Inv(D())
    {
      requests, order, serialisingInFlight, next, passed := map[], [], 0, 0, {};
    }

    method TrackedRequestBegin(offset: nat, bytes: nat, isWrite: bool) returns (id: nat)
      modifies this
      ensures id == old(next) && D() == Begin(old(D()), offset, bytes, isWrite)
    {
      id := next;
      requests := requests[id := NewRequest(offset, bytes, isWrite)];
      order := [id] + order;
      next := next + 1;
    }

    method MarkRequestSerialising(id: nat, align: nat)
      requires id in requests && align > 0
      modifies this
      ensures D() == Mark(old(D()), id, align)
    {
      var r := requests[id];
      var overlapOffset := AlignDown(r.offset, align);
      var overlapBytes := AlignUp(r.offset + r.bytes, align) - overlapOffset;
      if !r.serialising {
        serialisingInFlight := serialisingInFlight + 1;
        r := r.(serialising := true);
      }
      if overlapOffset < r.overlapOffset {
        r := r.(overlapOffset := overlapOffset);
      }
      if overlapBytes > r.overlapBytes {
        r := r.(overlapBytes := overlapBytes);
      }
      requests := requests[id := r];
    }

    /** One pass of `wait_serialising_requests` over the list; `waits` tells that it ended in a
        wait rather than in the return. */
    method ScanRequests(self: nat) returns (waits: bool)
      requires Listed(D()) && self in requests && requests[self].waitingFor.None?
      modifies this
      ensures D() == Scan(old(D()), self)
      ensures waits == requests[self].waitingFor.Some?
    {
      if serialisingInFlight == 0 {
        passed := passed + {self};
        return false;
      }
      var k := 0;
      while k < |order|
        invariant k <= |order| && D() == old(D())
        invariant Blocker(D(), self, 0) == Blocker(D(), self, k)
      {
        var req := order[k];
        if req != self && (requests[req].serialising || requests[self].serialising) {
          if Overlaps(requests[req], requests[self].overlapOffset, requests[self].overlapBytes) {
            if requests[req].waitingFor.None? {
              requests := requests[self := requests[self].(waitingFor := Some(req))];
              return true;
            }
          }
        }
        k := k + 1;
      }
      passed := passed + {self};
      return false;
    }

    method TrackedRequestEnd(id: nat)
      requires Inv(D()) && Enabled(D(), Finish(id))
      modifies this
      ensures D() == End(old(D()), id) && Inv(D())
    {
      ghost var d := D();
      EndCounts(d, id);
      if requests[id].serialising {
        serialisingInFlight := serialisingInFlight - 1;
      }
      order := RemoveFromList(order, id);
      requests := requests - {id};
      passed := passed - {id};
      assert D() == End(d, id);
    }

    /** A request from its beginning to its first return from, or wait in, the scan. */
    method StartRequest(offset: nat, bytes: nat, isWrite: bool, align: Option<nat>) returns (id: nat, waits: bool)
      requires Inv(D()) && (align.Some? ==> align.value > 0)
      modifies this
      ensures Inv(D()) && old(next) !in old(requests) && D() == Apply(old(D()), Arrive(offset, bytes, isWrite, align))
      ensures !waits ==> id in passed
      ensures forall other :: other in passed && other in requests && id in passed && id in requests && other != id ==>
        !Conflicts(requests[other], requests[id])
    {
      StepKeepsInv(D(), Arrive(offset, bytes, isWrite, align));
      id, waits := BeginAndScan(offset, bytes, isWrite, align);
    }

    method BeginAndScan(offset: nat, bytes: nat, isWrite: bool, align: Option<nat>) returns (id: nat, waits: bool)
      requires Listed(D()) && next !in requests && (align.Some? ==> align.value > 0)
      modifies this
      ensures D() == Apply(old(D()), Arrive(offset, bytes, isWrite, align)) && (!waits ==> id in passed)
    {
      id := TrackedRequestBegin(offset, bytes, isWrite);
      if align.Some? {
        MarkRequestSerialising(id, align.value);
      }
      waits := ScanRequests(id);
    }

    /** The loop of `wait_serialising_requests` taken up again after the wait. */
    method ResumeRequest(id: nat) returns (waits: bool)
      requires Inv(D()) && Enabled(D(), Resume(id))
      modifies this
      ensures Inv(D()) && old(next) !in old(requests) && D() == Apply(old(D()), Resume(id))
      ensures !waits ==> id in passed
    {
      StepKeepsInv(D(), Resume(id));
      requests := requests[id := requests[id].(waitingFor := None)];
      waits := ScanRequests(id);
    }
  }

  lemma RemoveSkips(order: seq<nat>, k: nat, id: nat)
    requires k < |order| && order[k] != id
    requires Remove(order, id) == order[..k] + Remove(order[k..], id)
    ensures Remove(order, id) == order[..k + 1] + Remove(order[k + 1..], id)
  {
    assert order[k..][1..] == order[k + 1..];
    assert order[..k] + [order[k]] == order[..k + 1];
  }
}
