/**
 The safety guarantees of the pipeline, over every reachable state.
 */
module DisruptorTheorems {
  import opened Bits
  import opened Disruptor
  import opened DisruptorSafety

  // ---- What handlers see, and what the producer may overwrite ----

  /** Every handler call got the event the producer claimed and published for that sequence, and
      worker `w` was given `w - 1 + n`, `w - 1 + 2n`, ... in that order. */
  lemma HandledEventsIntact(slots: seq<Event>, n: nat, s: State, w: nat, i: nat)
    requires |slots| > 0 && n > 0 && Reachable(slots, n, s)
    requires w < n && w < |s.workers| && i < |s.workers[w].handled|
    ensures var q := w - 1 + (i + 1) * n;
            && 0 <= q <= s.ring.cursor && q < |s.log|
            && s.workers[w].handled[i] == Handled(q, s.log[q])
  {
    ReachableInv(slots, n, s);
    StrideIs(w, n, i + 1);
    assert WorkerOk(s.workers[w], w, n, s.ring.gates[w], s.ring.cursor, s.log);
    assert HandledOk(s.workers[w].handled[i], Stride(w, n, i + 1), s.ring.cursor, s.log);
  }

  /** When the producer writes a slot, no worker is handling it, and no published sequence still
      waiting for its worker lives in it. */
  lemma ProducerWriteIsSafe(slots: seq<Event>, n: nat, s: State)
    requires |slots| > 0 && n > 0 && Reachable(slots, n, s) && Enabled(s, Write)
    ensures forall w :: 0 <= w < |s.workers| && s.workers[w].pc.Handling? ==>
              SlotOf(s.workers[w].seqNo, |slots|) != SlotOf(s.ring.claim, |slots|)
    ensures forall q :: 0 <= q <= s.ring.cursor && Pending(s.workers, q) ==>
              SlotOf(q, |slots|) != SlotOf(s.ring.claim, |slots|)
  {
    ReachableInv(slots, n, s);
    forall w | 0 <= w < |s.workers| && s.workers[w].pc.Handling?
      ensures SlotOf(s.workers[w].seqNo, |slots|) != SlotOf(s.ring.claim, |slots|)
    {
      HandlingInWindow(s, w);
      SlotsDiffer(s.workers[w].seqNo, s.ring.claim, s.ring.claim, |slots|);
    }
    forall q | 0 <= q <= s.ring.cursor && Pending(s.workers, q)
      ensures SlotOf(q, |slots|) != SlotOf(s.ring.claim, |slots|)
    {
      var w := (q + 1) % n;
      assert WorkerOk(s.workers[w], w, n, s.ring.gates[w], s.ring.cursor, s.log);
      assert s.ring.claim - s.ring.gates[w] < |slots|;
      SlotsDiffer(q, s.ring.claim, s.ring.claim, |slots|);
    }
  }

  /** Between the start and the end of a handler chain nobody else changes the slot. */
  lemma HandlersOwnTheSlot(slots: seq<Event>, n: nat, s: State, w: nat)
    requires |slots| > 0 && n > 0 && Reachable(slots, n, s)
    requires w < |s.workers| && s.workers[w].pc.Handling? && |s.ring.slots| == |slots|
    ensures s.ring.slots[SlotOf(s.workers[w].seqNo, |slots|)] == s.workers[w].pc.current
  {
    ReachableInv(slots, n, s);
    assert HandlingOk(s);
  }

  /** A step of worker `w`. */
  predicate OfWorker(step: Step, w: nat) {
    (step.LoadCursor? || step.Advance? || step.Touch? || step.EndHandle? || step.RaiseGate? || step.TestStop?) && step.w == w
  }

  lemma OthersLeaveWorker(s: State, step: Step, w: nat)
    requires Enabled(s, step) && w < |s.workers| && !OfWorker(step, w)
    ensures w < |Apply(s, step).workers| && Apply(s, step).workers[w] == s.workers[w]
  {}

  lemma {:induction false} RunLeavesWorker(s: State, steps: seq<Step>, t: State, w: nat)
    requires Run(s, steps, t) && w < |s.workers| && forall i :: 0 <= i < |steps| ==> !OfWorker(steps[i], w)
    ensures w < |t.workers| && t.workers[w] == s.workers[w]
    decreases |steps|
  {
    if steps != [] {
      OthersLeaveWorker(s, steps[0], w);
      RunLeavesWorker(Apply(s, steps[0]), steps[1..], t, w);
    }
  }

  /** What a handler writes into its slot is there until the worker's own next step, whatever the
      producer and the other workers do meanwhile. */
  lemma HandlerWriteStays(slots: seq<Event>, n: nat, s: State, w: nat, e: Event, steps: seq<Step>, t: State)
    requires |slots| > 0 && n > 0 && Reachable(slots, n, s) && Enabled(s, Touch(w, e))
    requires Run(Apply(s, Touch(w, e)), steps, t) && forall i :: 0 <= i < |steps| ==> !OfWorker(steps[i], w)
    ensures |t.ring.slots| == |slots| && t.ring.slots[SlotOf(s.workers[w].seqNo, |slots|)] == e
  {
    ReachableInv(slots, n, s);
    var s1 := Apply(s, Touch(w, e));
    StepKeepsInv(s, Touch(w, e));
    RunKeepsInv(s1, steps, t);
    RunLeavesWorker(s1, steps, t, w);
    assert HandlingOk(t);
  }

  /** The claim is never `capacity` or more ahead of a gate, so at most `capacity - 1` events are
      outstanding. */
  lemma ClaimWithinCapacity(slots: seq<Event>, n: nat, s: State, w: nat)
    requires |slots| > 0 && n > 0 && Reachable(slots, n, s) && w < |s.ring.gates|
    ensures s.ring.claim - s.ring.gates[w] <= |slots| - 1
  {
    ReachableInv(slots, n, s);
    assert CapacityOk(s);
  }

  // ---- Who handles what ----

  /** A handled sequence is at least `n - 1` and was handled by worker `(q + 1) mod n`. */
  lemma HandlerIsDetermined(slots: seq<Event>, n: nat, s: State, w: nat, i: nat)
    requires |slots| > 0 && n > 0 && Reachable(slots, n, s)
    requires w < n && w < |s.workers| && i < |s.workers[w].handled|
    ensures s.workers[w].handled[i].sequence >= n - 1
    ensures (s.workers[w].handled[i].sequence + 1) % n == w
  {
    HandledEventsIntact(slots, n, s, w, i);
    DivModUnique(w + (i + 1) * n, n, i + 1, w);
    MulMono(1, i + 1, n);
  }

  /** No sequence is handled twice, by one worker or by two. */
  lemma HandledOnce(slots: seq<Event>, n: nat, s: State, w: nat, i: nat, w': nat, i': nat)
    requires |slots| > 0 && n > 0 && Reachable(slots, n, s)
    requires w < n && w < |s.workers| && i < |s.workers[w].handled|
    requires w' < n && w' < |s.workers| && i' < |s.workers[w'].handled|
    requires s.workers[w].handled[i].sequence == s.workers[w'].handled[i'].sequence
    ensures w == w' && i == i'
  {
    HandlerIsDetermined(slots, n, s, w, i);
    HandlerIsDetermined(slots, n, s, w', i');
    HandledEventsIntact(slots, n, s, w, i);
    HandledEventsIntact(slots, n, s, w', i');
    DivModUnique(w + (i + 1) * n, n, i + 1, w);
    DivModUnique(w + (i' + 1) * n, n, i' + 1, w);
  }

  function Events(hs: seq<Handled>): (es: seq<Event>)
    ensures |es| == |hs| && forall i :: 0 <= i < |hs| ==> es[i] == hs[i].event
  {
    if hs == [] then [] else [hs[0].event] + Events(hs[1..])
  }

  lemma PrefixFromInv(s: State)
    requires Inv(s) && |s.workers| == 1
    ensures |s.workers[0].handled| <= s.ring.cursor + 1 <= |s.log|
    ensures Events(s.workers[0].handled) == s.log[..|s.workers[0].handled|]
    ensures s.workers[0].seqNo == |s.workers[0].handled| - 1
  {
    var k := s.workers[0];
    assert WorkerOk(k, 0, 1, s.ring.gates[0], s.ring.cursor, s.log);
    StrideIs(0, 1, |k.handled|);
    forall i | 0 <= i < |k.handled| ensures k.handled[i].event == s.log[i] {
      assert HandledOk(k.handled[i], Stride(0, 1, i + 1), s.ring.cursor, s.log);
      StrideIs(0, 1, i + 1);
    }
  }

  /** With one worker the handled events are, at all times, a prefix of the published ones. */
  lemma SingleWorkerPrefix(slots: seq<Event>, s: State)
    requires |slots| > 0 && Reachable(slots, 1, s)
    ensures |s.workers| == 1 && |s.workers[0].handled| <= s.ring.cursor + 1 <= |s.log|
    ensures Events(s.workers[0].handled) == s.log[..|s.workers[0].handled|]
    ensures s.workers[0].seqNo == |s.workers[0].handled| - 1
  {
    ReachableInv(slots, 1, s);
    PrefixFromInv(s);
  }

  // ---- Shutdown ----

  /** A stopped single worker has handled exactly the sequences up to the last cursor it loaded;
      it lost nothing if and only if nothing was published since. */
  lemma StoppedWorkerDrained(slots: seq<Event>, s: State)
    requires |slots| > 0 && Reachable(slots, 1, s) && |s.workers| == 1 && s.workers[0].pc.Stopped?
    ensures 0 <= s.workers[0].pc.c + 1 <= s.ring.cursor + 1 <= |s.log|
    ensures Events(s.workers[0].handled) == s.log[..s.workers[0].pc.c + 1]
    ensures Events(s.workers[0].handled) == s.log[..s.ring.cursor + 1] <==> s.ring.cursor == s.workers[0].pc.c
  {
    SingleWorkerPrefix(slots, s);
    ReachableInv(slots, 1, s);
    var k := s.workers[0];
    assert WorkerOk(k, 0, 1, s.ring.gates[0], s.ring.cursor, s.log);
  }
}
