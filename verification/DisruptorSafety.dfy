/**
 What every interleaving of the pipeline keeps.
 */
module DisruptorSafety {
  import opened Bits
  import opened Disruptor

  /** The `i`-th sequence of worker `w` among `n`: it starts at `w - 1` and adds `n` each time. */
  function Stride(w: nat, n: nat, i: nat): int {
    if i == 0 then w - 1 else Stride(w, n, i - 1) + n
  }

  lemma {:induction false} StrideIs(w: nat, n: nat, i: nat)
    ensures Stride(w, n, i) == w - 1 + i * n
    decreases i
  {
    if i > 0 {
      StrideIs(w, n, i - 1);
      MulDist(i - 1, 1, n);
    }
  }

  // ---- The inductive invariant ----

  ghost predicate HandledOk(h: Handled, q: int, cursor: int, log: seq<Event>) {
    h.sequence == q && 0 <= q <= cursor && q < |log| && h.event == log[q]
  }

  ghost predicate PcOk(k: Worker, w: nat, gate: int, cursor: int) {
    match k.pc
    case Top => gate == k.seqNo || (gate == INITIAL_VALUE && k.seqNo == w - 1)
    case Inner(c) => k.seqNo <= c <= cursor
    case Handling(c, _) => 0 <= k.seqNo <= c <= cursor && gate < k.seqNo
    case SetGate => true
    case CheckStop(c) => INITIAL_VALUE <= c <= k.seqNo && c <= cursor && (k.seqNo == c || k.seqNo == w - 1)
                         && (gate == k.seqNo || (gate == INITIAL_VALUE && k.seqNo == w - 1))
    case Stopped(c) => INITIAL_VALUE <= c <= k.seqNo && c <= cursor && (k.seqNo == c || k.seqNo == w - 1)
  }

  ghost predicate WorkerOk(k: Worker, w: nat, n: nat, gate: int, cursor: int, log: seq<Event>) {
    && INITIAL_VALUE <= gate <= k.seqNo
    && k.seqNo == Stride(w, n, |k.handled|)
    && (k.seqNo <= cursor || k.seqNo == w - 1)
    && (forall i :: 0 <= i < |k.handled| ==> HandledOk(k.handled[i], Stride(w, n, i + 1), cursor, log))
    && PcOk(k, w, gate, cursor)
  }

  ghost predicate WorkersOk(s: State)
    requires Shaped(s)
  {
    forall w :: 0 <= w < |s.workers| ==>
      WorkerOk(s.workers[w], w, |s.workers|, s.ring.gates[w], s.ring.cursor, s.log)
  }

  ghost predicate ProducerOk(s: State)
    requires Shaped(s)
  {
    var r := s.ring;
    && r.claim >= INITIAL_VALUE && |s.log| == r.claim + 1
    && (match s.producer
        case Idle => r.cursor == r.claim
        case Scanning(_, next, m) =>
          && r.cursor == r.claim && next <= |r.gates|
          && forall j :: 0 <= j < next ==> m <= r.gates[j]
        case Ready(_) =>
          && r.cursor == r.claim
          && forall j :: 0 <= j < |r.gates| ==> r.claim + 1 - r.gates[j] < |r.slots|
        case Claimed(e) => r.cursor == r.claim - 1 && r.claim >= 0 && s.log[r.claim] == e
        case Written => r.cursor == r.claim - 1 && r.claim >= 0
                        && r.slots[SlotOf(r.claim, |r.slots|)] == s.log[r.claim])
  }

  /** The claim never runs a full lap ahead of any gate. */
  ghost predicate CapacityOk(s: State) {
    forall w :: 0 <= w < |s.ring.gates| ==> s.ring.claim - s.ring.gates[w] < |s.ring.slots|
  }

  /** Sequence `q` has not been reached by its worker. */
  ghost predicate Pending(workers: seq<Worker>, q: int)
    requires |workers| > 0
  {
    q > workers[(q + 1) % |workers|].seqNo
  }

  ghost predicate SlotsOk(s: State)
    requires Shaped(s) && |s.log| == s.ring.claim + 1
  {
    forall q {:trigger Pending(s.workers, q)} :: 0 <= q <= s.ring.claim && q > s.ring.claim - |s.ring.slots|
                && (q <= s.ring.cursor || s.producer.Written?) && Pending(s.workers, q)
                ==> s.ring.slots[SlotOf(q, |s.ring.slots|)] == s.log[q]
  }

  /** While handlers run, the slot holds exactly what this worker's handlers last left there. */
  ghost predicate HandlingOk(s: State)
    requires Shaped(s)
  {
    forall w :: 0 <= w < |s.workers| && s.workers[w].pc.Handling? ==>
      s.ring.slots[SlotOf(s.workers[w].seqNo, |s.ring.slots|)] == s.workers[w].pc.current
  }

  ghost predicate StopOk(s: State) {
    forall w :: 0 <= w < |s.workers| && s.workers[w].pc.Stopped? ==> s.shutdown
  }

  ghost predicate Inv(s: State) {
    && Shaped(s)
    && StopOk(s)
    && WorkersOk(s)
    && ProducerOk(s)
    && CapacityOk(s)
    && SlotsOk(s)
    && HandlingOk(s)
  }

  // ---- Helpers ----

  /** A worker's sequence number stays in its own residue class. */
  lemma OwnerOf(k: Worker, w: nat, n: nat, gate: int, cursor: int, log: seq<Event>)
    requires w < n && WorkerOk(k, w, n, gate, cursor, log)
    ensures (k.seqNo + 1) % n == w && (k.seqNo + n + 1) % n == w
  {
    var h := |k.handled|;
    StrideIs(w, n, h);
    DivModUnique(k.seqNo + 1, n, h, w);
    MulDist(h, 1, n);
    DivModUnique(k.seqNo + n + 1, n, h + 1, w);
  }

  lemma SlotsDiffer(q: int, q': int, claim: int, cap: nat)
    requires cap > 0 && claim - cap < q <= claim && claim - cap < q' <= claim && q != q'
    ensures SlotOf(q, cap) != SlotOf(q', cap)
  {
    if q % cap == q' % cap {
      ModInjective(q, q', cap);
    }
  }

  /** A sequence being handled lies within one lap of the claim. */
  lemma HandlingInWindow(s: State, w: nat)
    requires Inv(s) && w < |s.workers| && s.workers[w].pc.Handling?
    ensures s.ring.claim - |s.ring.slots| < s.workers[w].seqNo <= s.ring.cursor
  {
    assert WorkerOk(s.workers[w], w, |s.workers|, s.ring.gates[w], s.ring.cursor, s.log);
  }

  /** Two workers never handle the same sequence. */
  lemma HandlersDistinct(s: State, w: nat, w': nat)
    requires Inv(s) && w < |s.workers| && w' < |s.workers| && w != w'
    ensures s.workers[w].seqNo != s.workers[w'].seqNo
  {
    OwnerOf(s.workers[w], w, |s.workers|, s.ring.gates[w], s.ring.cursor, s.log);
    OwnerOf(s.workers[w'], w', |s.workers|, s.ring.gates[w'], s.ring.cursor, s.log);
  }

  /** Worker facts survive a larger cursor and a longer log. */
  lemma WorkerGrows(k: Worker, w: nat, n: nat, gate: int, cursor: int, log: seq<Event>, cursor': int, log': seq<Event>)
    requires WorkerOk(k, w, n, gate, cursor, log) && cursor <= cursor' && log <= log'
    ensures WorkerOk(k, w, n, gate, cursor', log')
  {
    forall i | 0 <= i < |k.handled| ensures HandledOk(k.handled[i], Stride(w, n, i + 1), cursor', log') {
      assert HandledOk(k.handled[i], Stride(w, n, i + 1), cursor, log);
    }
  }

  lemma AllGrow(s: State, t: State)
    requires Shaped(s) && Shaped(t) && WorkersOk(s) && t.workers == s.workers && t.ring.gates == s.ring.gates
    requires s.ring.cursor <= t.ring.cursor && s.log <= t.log
    ensures WorkersOk(t)
  {
    forall w | 0 <= w < |t.workers|
      ensures WorkerOk(t.workers[w], w, |t.workers|, t.ring.gates[w], t.ring.cursor, t.log)
    {
      WorkerGrows(s.workers[w], w, |s.workers|, s.ring.gates[w], s.ring.cursor, s.log, t.ring.cursor, t.log);
    }
  }

  // ---- Each step keeps the invariant ----

  lemma InitInv(slots: seq<Event>, n: nat)
    requires |slots| > 0 && n > 0
    ensures Inv(Init(slots, n))
  {
    assert WorkersOk(Init(slots, n));
  }

  lemma ScanInv(s: State, step: Step)
    requires Inv(s) && Enabled(s, step) && (step.Begin? || step.ReadGate? || step.Decide? || step.Stop?)
    ensures Inv(Apply(s, step))
  {
    AllGrow(s, Apply(s, step));
  }

  lemma ClaimInv(s: State)
    requires Inv(s) && Enabled(s, Claim)
    ensures Inv(Apply(s, Claim))
  {
    AllGrow(s, Apply(s, Claim));
  }

  lemma WriteInv(s: State)
    requires Inv(s) && Enabled(s, Write)
    ensures Inv(Apply(s, Write))
  {
    var t, cap := Apply(s, Write), |s.ring.slots|;
    AllGrow(s, t);
    forall w | 0 <= w < |t.workers| && t.workers[w].pc.Handling?
      ensures t.ring.slots[SlotOf(t.workers[w].seqNo, cap)] == t.workers[w].pc.current
    {
      HandlingInWindow(s, w);
      SlotsDiffer(s.workers[w].seqNo, s.ring.claim, s.ring.claim, cap);
    }
    forall q | 0 <= q <= t.ring.claim && q > t.ring.claim - cap && Pending(t.workers, q)
      ensures t.ring.slots[SlotOf(q, cap)] == t.log[q]
    {
      if q != s.ring.claim {
        SlotsDiffer(q, s.ring.claim, s.ring.claim, cap);
      }
    }
  }

  lemma PublishInv(s: State)
    requires Inv(s) && Enabled(s, Publish)
    ensures Inv(Apply(s, Publish))
  {
    AllGrow(s, Apply(s, Publish));
  }

  /** A step that only moves one worker's program counter. */
  lemma PcMoveInv(s: State, t: State, w: nat, pc: Pc)
    requires Inv(s) && w < |s.workers|
    requires t == s.(workers := s.workers[w := s.workers[w].(pc := pc)]) && !pc.Handling?
    requires pc.Stopped? ==> s.shutdown
    requires PcOk(t.workers[w], w, s.ring.gates[w], s.ring.cursor)
    ensures Inv(t)
  {
    assert WorkerOk(s.workers[w], w, |s.workers|, s.ring.gates[w], s.ring.cursor, s.log);
    forall q | Pending(t.workers, q) ensures Pending(s.workers, q) {}
  }

  lemma LoadInv(s: State, w: nat)
    requires Inv(s) && Enabled(s, LoadCursor(w))
    ensures Inv(Apply(s, LoadCursor(w)))
  {
    assert WorkerOk(s.workers[w], w, |s.workers|, s.ring.gates[w], s.ring.cursor, s.log);
    var t := Apply(s, LoadCursor(w));
    PcMoveInv(s, t, w, t.workers[w].pc);
  }

  /** When a worker steps onto a sequence, its slot still holds the event claimed for it. */
  lemma AdvanceReadsLog(s: State, w: nat)
    requires Inv(s) && Enabled(s, Advance(w))
    ensures var q := s.workers[w].seqNo + |s.workers|;
            q <= s.workers[w].pc.c ==>
              && 0 <= q <= s.ring.cursor && q > s.ring.claim - |s.ring.slots| && Pending(s.workers, q)
              && s.ring.slots[SlotOf(q, |s.ring.slots|)] == s.log[q]
  {
    var k, n := s.workers[w], |s.workers|;
    assert WorkerOk(k, w, n, s.ring.gates[w], s.ring.cursor, s.log);
    OwnerOf(k, w, n, s.ring.gates[w], s.ring.cursor, s.log);
    assert s.ring.claim - s.ring.gates[w] < |s.ring.slots|;
    assert Pending(s.workers, k.seqNo + n);
  }

  lemma AdvanceWorkerOk(s: State, w: nat)
    requires Inv(s) && Enabled(s, Advance(w)) && Apply(s, Advance(w)).workers[w].pc.Handling?
    ensures var t := Apply(s, Advance(w));
            WorkerOk(t.workers[w], w, |t.workers|, t.ring.gates[w], t.ring.cursor, t.log)
  {
    var k, k', n := s.workers[w], Apply(s, Advance(w)).workers[w], |s.workers|;
    assert WorkerOk(k, w, n, s.ring.gates[w], s.ring.cursor, s.log);
    AdvanceReadsLog(s, w);
    forall i | 0 <= i < |k'.handled| ensures HandledOk(k'.handled[i], Stride(w, n, i + 1), s.ring.cursor, s.log) {
      if i < |k.handled| {
        assert HandledOk(k.handled[i], Stride(w, n, i + 1), s.ring.cursor, s.log);
      }
    }
  }

  /** Sequences only leave the pending set when a worker steps onto them. */
  lemma AdvanceKeepsSlots(s: State, w: nat)
    requires Inv(s) && Enabled(s, Advance(w))
    ensures SlotsOk(Apply(s, Advance(w)))
  {
    var t := Apply(s, Advance(w));
    forall q | Pending(t.workers, q) ensures Pending(s.workers, q) {}
  }

  lemma AdvanceKeepsWorkers(s: State, w: nat)
    requires Inv(s) && Enabled(s, Advance(w)) && Apply(s, Advance(w)).workers[w].pc.Handling?
    ensures WorkersOk(Apply(s, Advance(w))) && HandlingOk(Apply(s, Advance(w)))
  {
    AdvanceWorkerOk(s, w);
  }

  lemma AdvanceInv(s: State, w: nat)
    requires Inv(s) && Enabled(s, Advance(w))
    ensures Inv(Apply(s, Advance(w)))
  {
    var t := Apply(s, Advance(w));
    if t.workers[w].pc.SetGate? {
      PcMoveInv(s, t, w, SetGate);
    } else {
      AdvanceKeepsWorkers(s, w);
      AdvanceKeepsSlots(s, w);
    }
  }

  lemma TouchKeepsHandling(s: State, w: nat, e: Event)
    requires Inv(s) && Enabled(s, Touch(w, e))
    ensures HandlingOk(Apply(s, Touch(w, e)))
  {
    var t, cap := Apply(s, Touch(w, e)), |s.ring.slots|;
    HandlingInWindow(s, w);
    forall w' | 0 <= w' < |s.workers| && t.workers[w'].pc.Handling?
      ensures t.ring.slots[SlotOf(t.workers[w'].seqNo, cap)] == t.workers[w'].pc.current
    {
      if w' != w {
        HandlingInWindow(s, w');
        HandlersDistinct(s, w, w');
        SlotsDiffer(s.workers[w].seqNo, s.workers[w'].seqNo, s.ring.claim, cap);
      }
    }
  }

  lemma TouchKeepsSlots(s: State, w: nat, e: Event)
    requires Inv(s) && Enabled(s, Touch(w, e))
    ensures SlotsOk(Apply(s, Touch(w, e)))
  {
    var t, cap, q := Apply(s, Touch(w, e)), |s.ring.slots|, s.workers[w].seqNo;
    HandlingInWindow(s, w);
    OwnerOf(s.workers[w], w, |s.workers|, s.ring.gates[w], s.ring.cursor, s.log);
    forall q' | 0 <= q' <= t.ring.claim && q' > t.ring.claim - cap
                && (q' <= t.ring.cursor || t.producer.Written?) && Pending(t.workers, q')
      ensures t.ring.slots[SlotOf(q', cap)] == t.log[q']
    {
      assert Pending(s.workers, q');
      SlotsDiffer(q, q', s.ring.claim, cap);
    }
  }

  lemma TouchInv(s: State, w: nat, e: Event)
    requires Inv(s) && Enabled(s, Touch(w, e))
    ensures Inv(Apply(s, Touch(w, e)))
  {
    var t := Apply(s, Touch(w, e));
    assert WorkerOk(s.workers[w], w, |s.workers|, s.ring.gates[w], s.ring.cursor, s.log);
    HandlingInWindow(s, w);
    if s.producer.Written? {
      SlotsDiffer(s.workers[w].seqNo, s.ring.claim, s.ring.claim, |s.ring.slots|);
    }
    TouchKeepsHandling(s, w, e);
    TouchKeepsSlots(s, w, e);
    assert WorkersOk(t) && ProducerOk(t);
  }

  lemma GateKeepsWorkers(s: State, w: nat)
    requires Inv(s) && Enabled(s, RaiseGate(w))
    ensures WorkersOk(Apply(s, RaiseGate(w))) && CapacityOk(Apply(s, RaiseGate(w)))
  {
    assert WorkerOk(s.workers[w], w, |s.workers|, s.ring.gates[w], s.ring.cursor, s.log);
  }

  lemma GateInv(s: State, w: nat)
    requires Inv(s) && Enabled(s, RaiseGate(w))
    ensures Inv(Apply(s, RaiseGate(w)))
  {
    var t := Apply(s, RaiseGate(w));
    assert s.ring.gates[w] <= s.workers[w].seqNo by {
      assert WorkerOk(s.workers[w], w, |s.workers|, s.ring.gates[w], s.ring.cursor, s.log);
    }
    GateKeepsWorkers(s, w);
    forall q | Pending(t.workers, q) ensures Pending(s.workers, q) {}
  }

  lemma StepKeepsInv(s: State, step: Step)
    requires Inv(s) && Enabled(s, step)
    ensures Inv(Apply(s, step))
  {
    match step
    case Begin(_) => ScanInv(s, step);
    case ReadGate => ScanInv(s, step);
    case Decide => ScanInv(s, step);
    case Stop => ScanInv(s, step);
    case Claim => ClaimInv(s);
    case Write => WriteInv(s);
    case Publish => PublishInv(s);
    case LoadCursor(w) => LoadInv(s, w);
    case Advance(w) => AdvanceInv(s, w);
    case Touch(w, e) => TouchInv(s, w, e);
    case EndHandle(w) =>
      assert WorkerOk(s.workers[w], w, |s.workers|, s.ring.gates[w], s.ring.cursor, s.log);
      PcMoveInv(s, Apply(s, step), w, Inner(s.workers[w].pc.c));
    case RaiseGate(w) => GateInv(s, w);
    case TestStop(w) =>
      assert WorkerOk(s.workers[w], w, |s.workers|, s.ring.gates[w], s.ring.cursor, s.log);
      PcMoveInv(s, Apply(s, step), w, Apply(s, step).workers[w].pc);
  }

  lemma {:induction false} RunKeepsInv(s: State, steps: seq<Step>, t: State)
    requires Inv(s) && Run(s, steps, t)
    ensures Inv(t) && |t.workers| == |s.workers| && |t.ring.slots| == |s.ring.slots|
    decreases |steps|
  {
    if steps != [] {
      StepKeepsInv(s, steps[0]);
      RunKeepsInv(Apply(s, steps[0]), steps[1..], t);
    }
  }

  lemma ReachableInv(slots: seq<Event>, n: nat, s: State)
    requires |slots| > 0 && n > 0 && Reachable(slots, n, s)
    ensures Inv(s) && |s.workers| == n && |s.ring.slots| == |slots|
  {
    var steps: seq<Step> :| Run(Init(slots, n), steps, s);
    InitInv(slots, n);
    RunKeepsInv(Init(slots, n), steps, s);
  }
}
