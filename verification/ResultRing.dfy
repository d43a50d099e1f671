/**
 The result ring: committed transfer ids indexed by sequence number. It is meant to stand in for
 a map from sequence to transfer id; it does so exactly while no two sequences in flight share a
 slot.
 */
module ResultRing {
  import opened Bits
  import opened Wrappers
  import D = Disruptor
  import P = DisruptorProgress

  datatype Status = PENDING | COMMITTED

  /** The two arrays of the ring. */
  datatype Slots = Slots(status: seq<Status>, ids: seq<nat>)

  predicate WellFormed(r: Slots) {
    |r.status| == |r.ids| > 0
  }

  function Inserted(r: Slots, q: nat, id: nat): Slots
    requires WellFormed(r)
  {
    var i := SlotOf(q, |r.status|);
    Slots(r.status[i := COMMITTED], r.ids[i := id])
  }

  function Answer(r: Slots, q: nat): Option<nat>
    requires WellFormed(r)
  {
    var i := SlotOf(q, |r.status|);
    if r.status[i] == COMMITTED then Some(r.ids[i]) else None
  }

  function Removed(r: Slots, q: nat): Slots
    requires WellFormed(r)
  {
    r.(status := r.status[SlotOf(q, |r.status|) := PENDING])
  }

  class Ring {
    const status: array<Status>
    const transferIds: array<nat>
    const mask: nat

    ghost predicate Valid() {
      IsPow2(status.Length) && status.Length == transferIds.Length == mask + 1
    }

    ghost function Abs(): Slots
      reads status, transferIds
    {
      Slots(status[..], transferIds[..])
    }

    constructor (cap: nat)
      requires PowerOfTwoTest(cap)
      ensures Valid() && fresh(status) && fresh(transferIds) && status.Length == cap
      ensures forall i :: 0 <= i < cap ==> status[i] == PENDING
    {
      PowerOfTwoTestCorrect(cap);
      status := new Status[cap](_ => PENDING);
      transferIds := new nat[cap];
      mask := cap - 1;
    }

    method Index(q: nat) returns (i: nat)
      requires Valid()
      ensures i < status.Length && i == SlotOf(q, status.Length)
    {
      i := And(q, mask);
      ghost var k: nat :| status.Length == Pow2(k);
      MaskIsMod(q, k);
    }

    method Insert(q: nat, id: nat)
      requires Valid()
      modifies status, transferIds
      ensures Abs() == Inserted(old(Abs()), q, id)
    {
      var i := Index(q);
      transferIds[i] := id;
      status[i] := COMMITTED;
    }

    method TryRemove(q: nat) returns (r: Option<nat>)
      requires Valid()
      modifies status
      ensures r == Answer(old(Abs()), q)
      ensures Abs() == if r.Some? then Removed(old(Abs()), q) else old(Abs())
    {
      var i := Index(q);
      if status[i] == COMMITTED {
        var id := transferIds[i];
        status[i] := PENDING;
        r := Some(id);
      } else {
        r := None;
      }
    }

    method Contains(q: nat) returns (b: bool)
      requires Valid()
      ensures b <==> Answer(Abs(), q).Some?
    {
      var i := Index(q);
      b := status[i] == COMMITTED;
    }
  }

  // ---- The ring against a map ----

  /** A sequence is in flight from the moment its result is awaited until it is removed from the
      ring or turns out rejected. `results` is the map the ring stands in for. */
  datatype Client = Client(ring: Slots, inFlight: set<nat>, results: map<nat, nat>)

  datatype Op = Launch(q: nat) | Insert(q: nat, id: nat) | Poll(q: nat) | Reject(q: nat)

  /** A sequence is launched once at a time and gets at most one committed result. */
  predicate Legal(c: Client, op: Op) {
    match op
    case Launch(q) => q !in c.inFlight
    case Insert(q, _) => q in c.inFlight && q !in c.results
    case Poll(q) => q in c.inFlight
    case Reject(q) => q in c.inFlight && q !in c.results
  }

  function MapAnswer(m: map<nat, nat>, q: nat): Option<nat> {
    if q in m then Some(m[q]) else None
  }

  /** The client acts on what the ring tells it. */
  function Step(c: Client, op: Op): Client
    requires WellFormed(c.ring)
  {
    match op
    case Launch(q) => c.(inFlight := c.inFlight + {q})
    case Insert(q, id) => c.(ring := Inserted(c.ring, q, id), results := c.results[q := id])
    case Poll(q) =>
      if Answer(c.ring, q).Some?
      then Client(Removed(c.ring, q), c.inFlight - {q}, c.results - {q})
      else c
    case Reject(q) => c.(inFlight := c.inFlight - {q})
  }

  ghost predicate AliasFree(s: set<nat>, cap: nat)
    requires cap > 0
  {
    forall a, b :: a in s && b in s && SlotOf(a, cap) == SlotOf(b, cap) ==> a == b
  }

  /** Every operation is legal and no two sequences in flight ever share a slot. */
  ghost predicate AliasFreeRun(c: Client, ops: seq<Op>)
    requires WellFormed(c.ring)
    decreases |ops|
  {
    && AliasFree(c.inFlight, |c.ring.status|)
    && (ops != [] ==> Legal(c, ops[0]) && AliasFreeRun(Step(c, ops[0]), ops[1..]))
  }

  /** Every poll returns what the map would have returned. */
  ghost predicate BehavesAsMap(c: Client, ops: seq<Op>)
    requires WellFormed(c.ring)
    decreases |ops|
  {
    ops != [] ==>
      && (ops[0].Poll? ==> Answer(c.ring, ops[0].q) == MapAnswer(c.results, ops[0].q))
      && BehavesAsMap(Step(c, ops[0]), ops[1..])
  }

  /** Ring and map hold the same results, and a committed slot belongs to some result. */
  ghost predicate Matches(c: Client) {
    && WellFormed(c.ring)
    && c.results.Keys <= c.inFlight
    && (forall q :: q in c.inFlight ==> Answer(c.ring, q) == MapAnswer(c.results, q))
    && (forall i :: 0 <= i < |c.ring.status| && c.ring.status[i] == COMMITTED ==>
          exists q :: q in c.results && SlotOf(q, |c.ring.status|) == i)
  }

  lemma LaunchMatches(c: Client, q: nat)
    requires Matches(c) && Legal(c, Launch(q)) && AliasFree(c.inFlight + {q}, |c.ring.status|)
    ensures Matches(Step(c, Launch(q)))
  {}

  lemma InsertMatches(c: Client, q: nat, id: nat)
    requires Matches(c) && Legal(c, Insert(q, id)) && AliasFree(c.inFlight, |c.ring.status|)
    ensures Matches(Step(c, Insert(q, id)))
  {
    var c' := Step(c, Insert(q, id));
    forall i | 0 <= i < |c'.ring.status| && c'.ring.status[i] == COMMITTED
      ensures exists p :: p in c'.results && SlotOf(p, |c'.ring.status|) == i
    {
      if i == SlotOf(q, |c.ring.status|) {
        assert q in c'.results;
      } else {
        var p :| p in c.results && SlotOf(p, |c.ring.status|) == i;
        assert p in c'.results;
      }
    }
  }

  lemma PollMatches(c: Client, q: nat)
    requires Matches(c) && Legal(c, Poll(q)) && AliasFree(c.inFlight, |c.ring.status|)
    ensures Matches(Step(c, Poll(q)))
  {
    var c' := Step(c, Poll(q));
    forall i | 0 <= i < |c'.ring.status| && c'.ring.status[i] == COMMITTED
      ensures exists p :: p in c'.results && SlotOf(p, |c'.ring.status|) == i
    {
      var p :| p in c.results && SlotOf(p, |c.ring.status|) == i;
      assert p in c'.results;
    }
  }

  /** While no two sequences in flight share a slot, the ring is indistinguishable from a map. */
  lemma {:induction false} AliasFreeRingIsMap(c: Client, ops: seq<Op>)
    requires Matches(c) && AliasFreeRun(c, ops)
    ensures BehavesAsMap(c, ops)
    decreases |ops|
  {
    if ops != [] {
      match ops[0] {
        case Launch(q) => LaunchMatches(c, q);
        case Insert(q, id) => InsertMatches(c, q, id);
        case Poll(q) => PollMatches(c, q);
        case Reject(q) =>
      }
      AliasFreeRingIsMap(Step(c, ops[0]), ops[1..]);
    }
  }

  // ---- Alias freedom is exactly what the ring needs ----

  ghost predicate LegalRun(c: Client, ops: seq<Op>)
    requires WellFormed(c.ring)
    decreases |ops|
  {
    ops != [] ==> Legal(c, ops[0]) && LegalRun(Step(c, ops[0]), ops[1..])
  }

  predicate NoLaunch(ops: seq<Op>) {
    forall i :: 0 <= i < |ops| ==> !ops[i].Launch?
  }

  lemma OneBadPoll(c: Client, q: nat)
    requires WellFormed(c.ring) && q in c.inFlight && Answer(c.ring, q) != MapAnswer(c.results, q)
    ensures LegalRun(c, [Poll(q)]) && !BehavesAsMap(c, [Poll(q)])
  {
    assert [Poll(q)][1..] == [];
  }

  /** Whatever their state, two sequences in flight on one slot break the ring with at most two more
      operations: a poll of one answers for the other. */
  lemma AliasBreaksRing(c: Client, a: nat, b: nat) returns (ops: seq<Op>)
    requires WellFormed(c.ring) && a in c.inFlight && b in c.inFlight && a != b
    requires SlotOf(a, |c.ring.status|) == SlotOf(b, |c.ring.status|)
    ensures LegalRun(c, ops) && NoLaunch(ops) && !BehavesAsMap(c, ops)
  {
    if Answer(c.ring, a) != MapAnswer(c.results, a) {
      OneBadPoll(c, a);
      ops := [Poll(a)];
    } else if Answer(c.ring, b) != MapAnswer(c.results, b) {
      OneBadPoll(c, b);
      ops := [Poll(b)];
    } else {
      // Both agree with the map, so both are committed (to one id) or neither is.
      var first := if a in c.results then Poll(a) else Insert(a, 0);
      var c' := Step(c, first);
      assert [first, Poll(b)][1..] == [Poll(b)];
      OneBadPoll(c', b);
      ops := [first, Poll(b)];
    }
  }

  lemma {:induction false} NoLaunchStaysAliasFree(c: Client, ops: seq<Op>)
    requires WellFormed(c.ring) && LegalRun(c, ops) && NoLaunch(ops) && AliasFree(c.inFlight, |c.ring.status|)
    ensures AliasFreeRun(c, ops)
    decreases |ops|
  {
    if ops != [] {
      assert !ops[0].Launch?;
      NoLaunchStaysAliasFree(Step(c, ops[0]), ops[1..]);
    }
  }

  /** A ring in agreement with its map stays so for the sequences in flight if and only if no two of
      them share a slot. */
  lemma AliasFreedomIsExact(c: Client)
    requires Matches(c)
    ensures (forall ops :: LegalRun(c, ops) && NoLaunch(ops) ==> BehavesAsMap(c, ops))
            <==> AliasFree(c.inFlight, |c.ring.status|)
  {
    if AliasFree(c.inFlight, |c.ring.status|) {
      forall ops | LegalRun(c, ops) && NoLaunch(ops) ensures BehavesAsMap(c, ops) {
        NoLaunchStaysAliasFree(c, ops);
        AliasFreeRingIsMap(c, ops);
      }
    } else {
      var a, b :| a in c.inFlight && b in c.inFlight
                  && SlotOf(a, |c.ring.status|) == SlotOf(b, |c.ring.status|) && a != b;
      var ops := AliasBreaksRing(c, a, b);
      assert LegalRun(c, ops) && NoLaunch(ops) && !BehavesAsMap(c, ops);
    }
  }

  /** Sequences within `cap` consecutive numbers never share a slot. */
  lemma WindowIsAliasFree(s: set<nat>, lo: nat, cap: nat)
    requires cap > 0 && forall q :: q in s ==> lo <= q < lo + cap
    ensures AliasFree(s, cap)
  {
    forall a, b | a in s && b in s && SlotOf(a, cap) == SlotOf(b, cap) ensures a == b {
      ModInjective(a, b, cap);
    }
  }

  // ---- The first-in-first-out client of the bench scenario ----

  /** The client awaits consecutive sequences `lo..hi`, at most `window` of them, publishes at `hi`
      and drains at `lo`; results may arrive for any of them. */
  ghost predicate FifoRun(c: Client, lo: nat, hi: nat, window: nat, ops: seq<Op>)
    requires WellFormed(c.ring)
    decreases |ops|
  {
    && lo <= hi <= lo + window && (forall q :: q in c.inFlight <==> lo <= q < hi)
    && (ops != [] ==>
          && Legal(c, ops[0])
          && match ops[0]
             case Launch(q) => q == hi && hi - lo < window && FifoRun(Step(c, ops[0]), lo, hi + 1, window, ops[1..])
             case Insert(_, _) => FifoRun(Step(c, ops[0]), lo, hi, window, ops[1..])
             case Poll(q) => q == lo && FifoRun(Step(c, ops[0]), if Answer(c.ring, lo).Some? then lo + 1 else lo, hi, window, ops[1..])
             case Reject(q) => q == lo && FifoRun(Step(c, ops[0]), lo + 1, hi, window, ops[1..]))
  }

  lemma {:induction false} FifoIsAliasFree(c: Client, lo: nat, hi: nat, window: nat, ops: seq<Op>)
    requires WellFormed(c.ring) && window <= |c.ring.status| && FifoRun(c, lo, hi, window, ops)
    ensures AliasFreeRun(c, ops)
    decreases |ops|
  {
    WindowIsAliasFree(c.inFlight, lo, |c.ring.status|);
    if ops != [] {
      var c' := Step(c, ops[0]);
      match ops[0] {
        case Launch(_) => FifoIsAliasFree(c', lo, hi + 1, window, ops[1..]);
        case Insert(_, _) => FifoIsAliasFree(c', lo, hi, window, ops[1..]);
        case Poll(_) => FifoIsAliasFree(c', if Answer(c.ring, lo).Some? then lo + 1 else lo, hi, window, ops[1..]);
        case Reject(_) => FifoIsAliasFree(c', lo + 1, hi, window, ops[1..]);
      }
    }
  }

  ghost predicate AllPending(r: Slots) {
    forall i :: 0 <= i < |r.status| ==> r.status[i] == PENDING
  }

  /** From an empty ring, every poll of a client with a window no larger than the ring returns
      exactly the transfer committed for its sequence. */
  lemma FifoClientSeesMap(r: Slots, start: nat, window: nat, ops: seq<Op>)
    requires WellFormed(r) && window <= |r.status| && AllPending(r)
    requires FifoRun(Fresh(r), start, start, window, ops)
    ensures BehavesAsMap(Fresh(r), ops)
  {
    FifoIsAliasFree(Fresh(r), start, start, window, ops);
    AliasFreeRingIsMap(Fresh(r), ops);
  }

  // ---- Slots left committed ----

  /** A client that has nothing in flight yet. */
  function Fresh(r: Slots): Client {
    Client(r, {}, map[])
  }

  /** Publish, commit and drain the sequences before `target` one by one, then publish `target` and
      poll it before it is committed. */
  function OneByOne(from: nat, target: nat): seq<Op>
    requires from <= target
    decreases target - from
  {
    if from == target then [Launch(target)] + [Poll(target)]
    else [Launch(from)] + ([Insert(from, 0)] + ([Poll(from)] + OneByOne(from + 1, target)))
  }

  /** What the last poll of a run returns. */
  function LastAnswer(c: Client, ops: seq<Op>): Option<nat>
    requires WellFormed(c.ring) && ops != []
    decreases |ops|
  {
    if |ops| == 1 then Answer(c.ring, ops[0].q) else LastAnswer(Step(c, ops[0]), ops[1..])
  }

  /** The ring after sequence `q` was committed and drained. */
  function DrainedOnce(r: Slots, q: nat): (r': Slots)
    requires WellFormed(r)
    ensures WellFormed(r') && |r'.status| == |r.status|
  {
    Removed(Inserted(r, q, 0), q)
  }

  /** Draining one sequence leaves the client with nothing in flight. */
  lemma DrainOne(r: Slots, q: nat, rest: seq<Op>, window: nat)
    requires WellFormed(r) && window >= 1 && rest != []
    ensures var r', ops := DrainedOnce(r, q), [Launch(q)] + ([Insert(q, 0)] + ([Poll(q)] + rest));
            && (FifoRun(Fresh(r'), q + 1, q + 1, window, rest) ==> FifoRun(Fresh(r), q, q, window, ops))
            && (!BehavesAsMap(Fresh(r'), rest) ==> !BehavesAsMap(Fresh(r), ops))
            && LastAnswer(Fresh(r), ops) == LastAnswer(Fresh(r'), rest)
  {
    var c0 := Fresh(r);
    var c1 := Step(c0, Launch(q));
    var c2 := Step(c1, Insert(q, 0));
    var c3 := Step(c2, Poll(q));
    assert c3 == Fresh(DrainedOnce(r, q));
    var ops2 := [Poll(q)] + rest;
    var ops1 := [Insert(q, 0)] + ops2;
    var ops0 := [Launch(q)] + ops1;
    assert ops2[1..] == rest && ops1[1..] == ops2 && ops0[1..] == ops1;
    assert FifoRun(c3, q + 1, q + 1, window, rest) ==> FifoRun(c2, q, q + 1, window, ops2);
    assert FifoRun(c2, q, q + 1, window, ops2) ==> FifoRun(c1, q, q + 1, window, ops1);
    assert !BehavesAsMap(c3, rest) ==> !BehavesAsMap(c2, ops2);
    assert !BehavesAsMap(c2, ops2) ==> !BehavesAsMap(c1, ops1);
    assert LastAnswer(c2, ops2) == LastAnswer(c3, rest) && LastAnswer(c1, ops1) == LastAnswer(c2, ops2);
  }

  /** It leaves the slots of the others alone. */
  lemma DrainKeepsOthers(r: Slots, q: nat, target: nat)
    requires WellFormed(r) && q < target < q + |r.status|
    ensures var i, r' := SlotOf(target, |r.status|), DrainedOnce(r, q);
            r'.status[i] == r.status[i] && r'.ids[i] == r.ids[i]
  {
    if SlotOf(q, |r.status|) == SlotOf(target, |r.status|) {
      ModInjective(q, target, |r.status|);
    }
  }

  lemma StalePoll(r: Slots, q: nat, window: nat)
    requires WellFormed(r) && window >= 1 && r.status[SlotOf(q, |r.status|)] == COMMITTED
    ensures var ops := [Launch(q)] + [Poll(q)];
            && FifoRun(Fresh(r), q, q, window, ops) && !BehavesAsMap(Fresh(r), ops)
            && LastAnswer(Fresh(r), ops) == Some(r.ids[SlotOf(q, |r.status|)])
  {
    var c1 := Step(Fresh(r), Launch(q));
    assert ([Launch(q)] + [Poll(q)])[1..] == [Poll(q)] && [Poll(q)][1..] == [];
    assert FifoRun(Step(c1, Poll(q)), q + 1, q + 1, window, []);
    assert FifoRun(c1, q, q + 1, window, [Poll(q)]);
    OneBadPoll(c1, q);
    assert LastAnswer(c1, [Poll(q)]) == Answer(r, q);
  }

  /** The run from `from` to `target` is one of the client and ends with another sequence's transfer. */
  ghost predicate EndsStale(r: Slots, from: nat, target: nat, window: nat, id: nat)
    requires WellFormed(r) && from <= target
  {
    && FifoRun(Fresh(r), from, from, window, OneByOne(from, target))
    && !BehavesAsMap(Fresh(r), OneByOne(from, target))
    && LastAnswer(Fresh(r), OneByOne(from, target)) == Some(id)
  }

  /** A committed slot that was never drained answers the first poll of the next sequence on it, with
      the old transfer id. */
  lemma {:induction false} StaleSlotAnswers(r: Slots, from: nat, target: nat, window: nat)
    requires WellFormed(r) && window >= 1 && from <= target < from + |r.status|
    requires r.status[SlotOf(target, |r.status|)] == COMMITTED
    ensures EndsStale(r, from, target, window, r.ids[SlotOf(target, |r.status|)])
    decreases target - from
  {
    if from == target {
      StalePoll(r, target, window);
    } else {
      DrainKeepsOthers(r, from, target);
      StaleSlotAnswers(DrainedOnce(r, from), from + 1, target, window);
      StaleBefore(r, from, target, window, r.ids[SlotOf(target, |r.status|)]);
    }
  }

  lemma StaleBefore(r: Slots, from: nat, target: nat, window: nat, id: nat)
    requires WellFormed(r) && window >= 1 && from < target
    requires EndsStale(DrainedOnce(r, from), from + 1, target, window, id)
    ensures EndsStale(r, from, target, window, id)
  {
    DrainOne(r, from, OneByOne(from + 1, target), window);
  }

  /** The next sequence on a slot. */
  lemma NextOnSlot(from: nat, i: nat, cap: nat) returns (target: nat)
    requires i < cap
    ensures from <= target < from + cap && SlotOf(target, cap) == i
  {
    var d := (i - from) % cap;
    target := from + d;
    var k := (i - from) / cap;
    assert i - from == k * cap + d;
    ModShift(i, cap, -k);
    assert i + -k * cap == target;
    DivModUnique(i, cap, 0, i);
  }

  /** Launch up to `end`, commit the last one launched and poll the first. */
  function Overfill(lo: nat, hi: nat, end: nat): seq<Op>
    requires hi <= end && end > 0
    decreases end - hi
  {
    if hi == end then [Insert(end - 1, 0)] + [Poll(lo)] else [Launch(hi)] + Overfill(lo, hi + 1, end)
  }

  /** Once a lap more than the ring is in flight, the poll of the first returns the result of the last. */
  lemma LapPoll(c: Client, lo: nat, end: nat, window: nat)
    requires WellFormed(c.ring) && end == lo + |c.ring.status| + 1 && window >= end - lo
    requires (forall q :: q in c.inFlight <==> lo <= q < end) && c.results == map[]
    ensures FifoRun(c, lo, end, window, [Insert(end - 1, 0)] + [Poll(lo)])
    ensures !BehavesAsMap(c, [Insert(end - 1, 0)] + [Poll(lo)])
  {
    var cap := |c.ring.status|;
    ModShift(lo, cap, 1);
    assert SlotOf(end - 1, cap) == SlotOf(lo, cap);
    var c1 := Step(c, Insert(end - 1, 0));
    assert ([Insert(end - 1, 0)] + [Poll(lo)])[1..] == [Poll(lo)] && [Poll(lo)][1..] == [];
    assert FifoRun(Step(c1, Poll(lo)), lo + 1, end, window, []);
    assert FifoRun(c1, lo, end, window, [Poll(lo)]);
    OneBadPoll(c1, lo);
  }

  lemma {:induction false} OverfillBreaks(c: Client, lo: nat, hi: nat, end: nat, window: nat)
    requires WellFormed(c.ring) && end == lo + |c.ring.status| + 1 && lo <= hi <= end && window >= end - lo
    requires (forall q :: q in c.inFlight <==> lo <= q < hi) && c.results == map[]
    ensures FifoRun(c, lo, hi, window, Overfill(lo, hi, end)) && !BehavesAsMap(c, Overfill(lo, hi, end))
    decreases end - hi
  {
    if hi == end {
      LapPoll(c, lo, end, window);
    } else {
      OverfillBreaks(Step(c, Launch(hi)), lo, hi + 1, end, window);
      assert ([Launch(hi)] + Overfill(lo, hi + 1, end))[1..] == Overfill(lo, hi + 1, end);
    }
  }

  /** A first-in-first-out client sees a map in all its runs if and only if it starts on a ring with every
      slot pending and its window is no larger than the ring. */
  lemma FifoSeesMapIff(r: Slots, start: nat, window: nat)
    requires WellFormed(r) && window >= 1
    ensures (forall ops :: FifoRun(Fresh(r), start, start, window, ops) ==> BehavesAsMap(Fresh(r), ops))
            <==> AllPending(r) && window <= |r.status|
  {
    if !AllPending(r) {
      var i :| 0 <= i < |r.status| && r.status[i] != PENDING;
      var target := NextOnSlot(start, i, |r.status|);
      StaleSlotAnswers(r, start, target, window);
      assert FifoRun(Fresh(r), start, start, window, OneByOne(start, target));
    } else if window > |r.status| {
      var end := start + |r.status| + 1;
      OverfillBreaks(Fresh(r), start, start, end, window);
      assert FifoRun(Fresh(r), start, start, window, Overfill(start, start, end));
    } else {
      forall ops | FifoRun(Fresh(r), start, start, window, ops) ensures BehavesAsMap(Fresh(r), ops) {
        FifoClientSeesMap(r, start, window, ops);
      }
    }
  }

  // ---- The warm-up of the bench scenario ----

  /** The ring after the results of sequences 0, 1, ... were inserted and nobody drained them. */
  function WarmedUp(r: Slots, ids: seq<nat>): (r': Slots)
    requires WellFormed(r)
    ensures WellFormed(r') && |r'.status| == |r.status|
  {
    if ids == [] then r else Inserted(WarmedUp(r, ids[..|ids| - 1]), |ids| - 1, ids[|ids| - 1])
  }

  lemma {:induction false} WarmedUpSlots(r: Slots, ids: seq<nat>, i: nat)
    requires WellFormed(r) && i < |ids| <= |r.status|
    ensures WarmedUp(r, ids).status[i] == COMMITTED && WarmedUp(r, ids).ids[i] == ids[i]
    decreases |ids|
  {
    var k := |ids| - 1;
    DivModUnique(k, |r.status|, 0, k);
    if i < k {
      WarmedUpSlots(r, ids[..k], i);
    }
  }

  /** After an undrained warm-up of at least one event, a client that goes on at the next sequence gets,
      one lap later, the transfer committed for sequence 0 as the result of sequence `cap`. */
  lemma WarmUpBreaksClient(r: Slots, ids: seq<nat>, window: nat)
    requires WellFormed(r) && 1 <= |ids| <= |r.status| && window >= 1
    ensures var w, cap := WarmedUp(r, ids), |r.status|;
            && FifoRun(Fresh(w), |ids|, |ids|, window, OneByOne(|ids|, cap))
            && !BehavesAsMap(Fresh(w), OneByOne(|ids|, cap))
            && LastAnswer(Fresh(w), OneByOne(|ids|, cap)) == Some(ids[0])
  {
    WarmedUpSlots(r, ids, 0);
    DivModUnique(|r.status|, |r.status|, 1, 0);
    StaleSlotAnswers(WarmedUp(r, ids), |ids|, |r.status|, window);
  }

  // ---- The pipeline's capacity does not help ----

  /** Whatever the two capacities, the pipeline can publish so much before anything is drained that two
      published sequences share a slot of the result ring. */
  lemma CapacityIsNoBound(slots: seq<D.Event>, n: nat, cap: nat, e: D.Event) returns (s: D.State)
    requires 0 < n < |slots| && cap > 0
    ensures D.Reachable(slots, n, s) && !s.shutdown && s.ring.cursor >= cap
    ensures forall awaited: set<nat> :: (forall q :: 0 <= q <= s.ring.cursor ==> q in awaited) ==> !AliasFree(awaited, cap)
  {
    s := P.PublishesForever(slots, n, cap + 1, e);
    DivModUnique(cap, cap, 1, 0);
    DivModUnique(0, cap, 0, 0);
    assert SlotOf(0, cap) == SlotOf(cap, cap);
    forall awaited: set<nat> | forall q :: 0 <= q <= s.ring.cursor ==> q in awaited
      ensures !AliasFree(awaited, cap)
    {
      assert 0 in awaited && cap in awaited;
    }
  }
}
