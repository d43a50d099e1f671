/**
 The Disruptor pipeline as a state machine: one producer and N workers share a ring of slots,
 and every atomic load, store, slot write and handler call is a separate step, so a run is an
 arbitrary interleaving of them.
 */
module Disruptor {
  import opened Bits

  datatype Event = Event(transactionId: nat, debitAccount: nat, creditAccount: nat, amountUnits: nat)

  /** The shared memory: the slots, the producer's claim counter, the published cursor and one
      gating sequence per worker. */
  datatype Ring = Ring(slots: seq<Event>, claim: int, cursor: int, gates: seq<int>)

  /** Where the producer is inside `publish_event`. `Scanning` is the middle of
      `has_available_capacity`: `next` gates have been loaded, the smallest being `minGate`. */
  datatype Producer =
    | Idle
    | Scanning(event: Event, next: nat, minGate: int)
    | Ready(event: Event)
    | Claimed(event: Event)
    | Written

  /** Where a worker is inside the `run` loop. `c` is the cursor value it loaded. */
  datatype Pc =
    | Top
    | Inner(c: int)
    | Handling(c: int, current: Event)
    | SetGate
    | CheckStop(c: int)
    | Stopped(c: int)

  datatype Handled = Handled(sequence: int, event: Event)

  /** `handled` records what the handlers were given: the sequence and the slot's content. */
  datatype Worker = Worker(pc: Pc, seqNo: int, handled: seq<Handled>)

  /** `log[q]` is the event the producer claimed sequence `q` for. */
  datatype State = State(ring: Ring, producer: Producer, workers: seq<Worker>, shutdown: bool, log: seq<Event>)

  datatype Step =
    | Begin(event: Event) | ReadGate | Decide | Claim | Write | Publish | Stop
    | LoadCursor(w: nat) | Advance(w: nat) | Touch(w: nat, event: Event) | EndHandle(w: nat)
    | RaiseGate(w: nat) | TestStop(w: nat)

  const INITIAL_VALUE := -1

  function Init(slots: seq<Event>, n: nat): State {
    State(Ring(slots, INITIAL_VALUE, INITIAL_VALUE, seq(n, _ => INITIAL_VALUE)), Idle,
          seq(n, w => Worker(Top, w - 1, [])), false, [])
  }

  /** The ring after one uninterrupted claim, slot write and publish of `e`. */
  function PublishedRing(r: Ring, e: Event): Ring
    requires |r.slots| > 0
  {
    Ring(r.slots[SlotOf(r.claim + 1, |r.slots|) := e], r.claim + 1, r.claim + 1, r.gates)
  }

  predicate Shaped(s: State) {
    |s.ring.slots| > 0 && |s.ring.gates| == |s.workers| > 0
  }

  predicate Enabled(s: State, step: Step) {
    && Shaped(s)
    && match step
       case Begin(_) => s.producer.Idle?
       case ReadGate => s.producer.Scanning? && s.producer.next < |s.ring.gates|
       case Decide => s.producer.Scanning? && s.producer.next == |s.ring.gates|
       case Claim => s.producer.Ready?
       case Write => s.producer.Claimed?
       case Publish => s.producer.Written?
       case Stop => true
       case LoadCursor(w) => w < |s.workers| && s.workers[w].pc.Top?
       case Advance(w) => w < |s.workers| && s.workers[w].pc.Inner?
       case Touch(w, _) => w < |s.workers| && s.workers[w].pc.Handling?
       case EndHandle(w) => w < |s.workers| && s.workers[w].pc.Handling?
       case RaiseGate(w) => w < |s.workers| && s.workers[w].pc.SetGate?
       case TestStop(w) => w < |s.workers| && s.workers[w].pc.CheckStop?
  }

  /** The worker's next move in the inner loop: stop the batch, or step one stride and hand the
      slot to the handlers. */
  function AdvanceWorker(k: Worker, n: nat, slots: seq<Event>): Worker
    requires k.pc.Inner? && |slots| > 0
  {
    var next := k.seqNo + n;
    if k.seqNo < k.pc.c && next <= k.pc.c then
      var e := slots[SlotOf(next, |slots|)];
      Worker(Handling(k.pc.c, e), next, k.handled + [Handled(next, e)])
    else
      k.(pc := SetGate)
  }

  function Apply(s: State, step: Step): State
    requires Enabled(s, step)
  {
    var r, cap, n := s.ring, |s.ring.slots|, |s.workers|;
    match step
    case Begin(e) => s.(producer := Scanning(e, 0, 0))
    case ReadGate =>
      var p := s.producer;
      var g := r.gates[p.next];
      s.(producer := Scanning(p.event, p.next + 1, if p.next == 0 || g < p.minGate then g else p.minGate))
    case Decide =>
      s.(producer := if r.claim + 1 - s.producer.minGate < cap then Ready(s.producer.event) else Idle)
    case Claim =>
      s.(ring := r.(claim := r.claim + 1), producer := Claimed(s.producer.event), log := s.log + [s.producer.event])
    case Write =>
      s.(ring := r.(slots := r.slots[SlotOf(r.claim, cap) := s.producer.event]), producer := Written)
    case Publish => s.(ring := r.(cursor := r.claim), producer := Idle)
    case Stop => s.(shutdown := true)
    case LoadCursor(w) =>
      var k := s.workers[w];
      s.(workers := s.workers[w := k.(pc := if r.cursor > k.seqNo then Inner(r.cursor) else CheckStop(r.cursor))])
    case Advance(w) => s.(workers := s.workers[w := AdvanceWorker(s.workers[w], n, r.slots)])
    case Touch(w, e) =>
      var k := s.workers[w];
      s.(ring := r.(slots := r.slots[SlotOf(k.seqNo, cap) := e]),
         workers := s.workers[w := k.(pc := Handling(k.pc.c, e))])
    case EndHandle(w) => s.(workers := s.workers[w := s.workers[w].(pc := Inner(s.workers[w].pc.c))])
    case RaiseGate(w) =>
      s.(ring := r.(gates := r.gates[w := s.workers[w].seqNo]), workers := s.workers[w := s.workers[w].(pc := Top)])
    case TestStop(w) =>
      var k := s.workers[w];
      s.(workers := s.workers[w := k.(pc := if s.shutdown then Stopped(k.pc.c) else Top)])
  }

  /** `steps` takes the pipeline from `s` to `t`. */
  ghost predicate Run(s: State, steps: seq<Step>, t: State)
    decreases |steps|
  {
    if steps == [] then s == t
    else Enabled(s, steps[0]) && Run(Apply(s, steps[0]), steps[1..], t)
  }

  /** `s` occurs in some run of a pipeline built with these slots and `n` workers. */
  ghost predicate Reachable(slots: seq<Event>, n: nat, s: State) {
    exists steps: seq<Step> :: Run(Init(slots, n), steps, s)
  }

  lemma {:induction false} RunConcat(s: State, xs: seq<Step>, t: State, ys: seq<Step>, u: State)
    requires Run(s, xs, t) && Run(t, ys, u)
    ensures Run(s, xs + ys, u)
    decreases |xs|
  {
    if xs == [] {
      assert xs + ys == ys;
    } else {
      RunConcat(Apply(s, xs[0]), xs[1..], t, ys, u);
      assert (xs + ys)[0] == xs[0] && (xs + ys)[1..] == xs[1..] + ys;
    }
  }

  lemma RunOne(s: State, step: Step)
    requires Enabled(s, step)
    ensures Run(s, [step], Apply(s, step))
  {
    assert Run(Apply(s, step), [step][1..], Apply(s, step));
  }

  lemma RunCons(s: State, step: Step, rest: seq<Step>, t: State)
    requires Enabled(s, step) && Run(Apply(s, step), rest, t)
    ensures Run(s, [step] + rest, t)
  {
    assert ([step] + rest)[1..] == rest;
  }

  lemma ReachableConcat(slots: seq<Event>, n: nat, s: State, ys: seq<Step>, t: State)
    requires Reachable(slots, n, s) && Run(s, ys, t)
    ensures Reachable(slots, n, t)
  {
    var xs: seq<Step> :| Run(Init(slots, n), xs, s);
    RunConcat(Init(slots, n), xs, s, ys, t);
  }
}
