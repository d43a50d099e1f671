/**
 What the pipeline can always still do, and where it gets stuck.
 */
module DisruptorProgress {
  import opened Bits
  import opened Disruptor
  import opened DisruptorSafety

  // ---- The producer, running alone ----

  /** Running the capacity scan alone ends in `Ready` when every gate leaves room. */
  lemma {:induction false} FinishScan(s: State) returns (steps: seq<Step>, t: State)
    requires Inv(s) && s.producer.Scanning?
    ensures Run(s, steps, t) && t == s.(producer := t.producer)
    ensures t.producer == Ready(s.producer.event) || t.producer == Idle
    ensures (s.producer.next > 0 ==> s.ring.claim + 1 - s.producer.minGate < |s.ring.slots|)
            && (forall j :: s.producer.next <= j < |s.ring.gates| ==> s.ring.claim + 1 - s.ring.gates[j] < |s.ring.slots|)
            && |s.ring.gates| > 0
            ==> t.producer.Ready?
    decreases |s.ring.gates| - s.producer.next
  {
    if s.producer.next == |s.ring.gates| {
      t := Apply(s, Decide);
      RunOne(s, Decide);
      steps := [Decide];
    } else {
      var s' := Apply(s, ReadGate);
      StepKeepsInv(s, ReadGate);
      var rest;
      rest, t := FinishScan(s');
      RunCons(s, ReadGate, rest, t);
      steps := [ReadGate] + rest;
    }
  }

  /** The state after the producer claims, writes and publishes `e`. */
  function Published(s: State, e: Event): State
    requires |s.ring.slots| > 0
  {
    s.(ring := PublishedRing(s.ring, e), producer := Idle, log := s.log + [e])
  }

  lemma FinishPublish(s: State) returns (steps: seq<Step>)
    requires Inv(s) && s.producer.Ready?
    ensures Run(s, steps, Published(s, s.producer.event))
  {
    var s1 := Apply(s, Claim);
    var s2 := Apply(s1, Write);
    RunOne(s2, Publish);
    RunCons(s1, Write, [Publish], Apply(s2, Publish));
    RunCons(s, Claim, [Write] + [Publish], Apply(s2, Publish));
    steps := [Claim] + ([Write] + [Publish]);
  }

  ghost predicate HasRoom(s: State) {
    forall j :: 0 <= j < |s.ring.gates| ==> s.ring.claim + 1 - s.ring.gates[j] < |s.ring.slots|
  }

  /** An idle producer that finds room everywhere publishes. */
  lemma PublishAlone(s: State, e: Event) returns (steps: seq<Step>)
    requires Inv(s) && s.producer.Idle? && HasRoom(s)
    ensures Run(s, steps, Published(s, e))
  {
    var s1 := Apply(s, Begin(e));
    StepKeepsInv(s, Begin(e));
    var xs, s2 := FinishScan(s1);
    RunKeepsInv(s1, xs, s2);
    var ys := FinishPublish(s2);
    RunConcat(s1, xs, s2, ys, Published(s2, e));
    RunCons(s, Begin(e), xs + ys, Published(s2, e));
    steps := [Begin(e)] + (xs + ys);
  }

  lemma FinishWrite(s: State) returns (steps: seq<Step>, t: State)
    requires Inv(s) && (s.producer.Claimed? || s.producer.Written?)
    ensures Run(s, steps, t) && t.producer.Idle? && t.shutdown == s.shutdown && s.log == t.log
    ensures t.workers == s.workers && t.ring.gates == s.ring.gates && t.ring.claim == s.ring.claim
  {
    if s.producer.Claimed? {
      var s1 := Apply(s, Write);
      t := Apply(s1, Publish);
      RunOne(s1, Publish);
      RunCons(s, Write, [Publish], t);
      steps := [Write] + [Publish];
    } else {
      t := Apply(s, Publish);
      RunOne(s, Publish);
      steps := [Publish];
    }
  }

  /** Whatever it is in the middle of, the producer can finish its call alone. */
  lemma FinishCall(s: State) returns (steps: seq<Step>, t: State)
    requires Inv(s)
    ensures Run(s, steps, t) && t.producer.Idle? && t.shutdown == s.shutdown && s.log <= t.log
  {
    if s.producer.Idle? {
      steps, t := [], s;
    } else if s.producer.Claimed? || s.producer.Written? {
      steps, t := FinishWrite(s);
    } else if s.producer.Ready? {
      steps := FinishPublish(s);
      t := Published(s, s.producer.event);
    } else {
      var xs, s1 := FinishScan(s);
      RunKeepsInv(s, xs, s1);
      if s1.producer.Idle? {
        steps, t := xs, s1;
      } else {
        var ys := FinishPublish(s1);
        t := Published(s1, s1.producer.event);
        RunConcat(s, xs, s1, ys, t);
        steps := xs + ys;
      }
    }
  }

  // ---- A worker, running alone ----

  /** Only worker `w` and its gate moved. */
  ghost predicate OnlyWorker(s: State, t: State, w: nat)
    requires Shaped(s)
  {
    && Shaped(t) && |t.workers| == |s.workers|
    && t == s.(ring := s.ring.(gates := t.ring.gates), workers := t.workers)
    && forall j :: 0 <= j < |s.workers| && j != w ==> t.workers[j] == s.workers[j] && t.ring.gates[j] == s.ring.gates[j]
  }

  /** Worker `w` is idle at the top of its loop, has no published stride left, and its gate says so
      (or the cursor has not passed its start). */
  ghost predicate Drained(s: State, w: nat)
    requires Shaped(s) && w < |s.workers|
  {
    && s.workers[w].pc.Top?
    && s.workers[w].seqNo + |s.workers| > s.ring.cursor
    && (s.ring.gates[w] == s.workers[w].seqNo || s.ring.cursor <= s.workers[w].seqNo)
  }

  function Rank(s: State, w: nat): nat
    requires Shaped(s) && w < |s.workers|
  {
    var k := s.workers[w];
    match k.pc
    case Handling(_, _) => 9
    case CheckStop(_) => 7
    case Top => if s.ring.gates[w] != k.seqNo then 6 else 3
    case Inner(c) => if k.seqNo + |s.workers| <= c then 2 else 5
    case SetGate => 4
    case Stopped(_) => 0
  }

  function NextOf(k: Worker, w: nat): Step {
    match k.pc
    case Top => LoadCursor(w)
    case Inner(_) => Advance(w)
    case Handling(_, _) => EndHandle(w)
    case SetGate => RaiseGate(w)
    case CheckStop(_) => TestStop(w)
    case Stopped(_) => Stop
  }

  lemma WorkerStep(s: State, w: nat)
    requires Inv(s) && w < |s.workers| && !Drained(s, w)
    requires !s.workers[w].pc.Stopped? && (s.workers[w].pc.CheckStop? ==> !s.shutdown)
    ensures var step := NextOf(s.workers[w], w);
            && Enabled(s, step)
            && var t := Apply(s, step);
               && OnlyWorker(s, t, w)
               && !t.workers[w].pc.Stopped? && !t.workers[w].pc.CheckStop?
               && t.workers[w].seqNo >= s.workers[w].seqNo
               && (t.workers[w].seqNo > s.workers[w].seqNo ==> t.workers[w].seqNo <= s.ring.cursor)
               && (t.workers[w].seqNo == s.workers[w].seqNo ==> Rank(t, w) < Rank(s, w))
  {
    assert WorkerOk(s.workers[w], w, |s.workers|, s.ring.gates[w], s.ring.cursor, s.log);
  }

  /** A worker left alone catches up with the cursor. */
  lemma {:induction false} DrainWorker(s: State, w: nat) returns (steps: seq<Step>, t: State)
    requires Inv(s) && w < |s.workers|
    requires !s.workers[w].pc.Stopped? && (s.workers[w].pc.CheckStop? ==> !s.shutdown)
    ensures Run(s, steps, t) && Inv(t) && OnlyWorker(s, t, w) && Drained(t, w)
    decreases if s.workers[w].seqNo <= s.ring.cursor then s.ring.cursor - s.workers[w].seqNo + 1 else 0, Rank(s, w)
  {
    if Drained(s, w) {
      steps, t := [], s;
    } else {
      var step := NextOf(s.workers[w], w);
      WorkerStep(s, w);
      StepKeepsInv(s, step);
      var s' := Apply(s, step);
      var rest;
      rest, t := DrainWorker(s', w);
      RunCons(s, step, rest, t);
      steps := [step] + rest;
    }
  }

  /** The worker has left its loop or is about to, and will not move its gate again. */
  predicate Halted(s: State, w: nat)
    requires w < |s.workers|
  {
    s.workers[w].pc.Stopped? || (s.workers[w].pc.CheckStop? && s.shutdown)
  }

  lemma StaysDrained(s: State, t: State, w: nat, v: nat)
    requires Shaped(s) && OnlyWorker(s, t, w) && v < |s.workers| && v != w && Drained(s, v)
    ensures Drained(t, v)
  {}

  /** Those of the first `m` workers that have not halted catch up one after the other. */
  lemma {:induction false} DrainLive(s: State, m: nat) returns (steps: seq<Step>, t: State)
    requires Inv(s) && m <= |s.workers|
    ensures Run(s, steps, t) && Inv(t) && |t.workers| == |s.workers|
    ensures t == s.(ring := s.ring.(gates := t.ring.gates), workers := t.workers)
    ensures forall w :: 0 <= w < |s.workers| && (w >= m || Halted(s, w)) ==>
              t.workers[w] == s.workers[w] && t.ring.gates[w] == s.ring.gates[w]
    ensures forall w :: 0 <= w < m && !Halted(s, w) ==> Drained(t, w)
    decreases m
  {
    if m == 0 {
      steps, t := [], s;
    } else {
      var xs, s1 := DrainLive(s, m - 1);
      if Halted(s, m - 1) {
        steps, t := xs, s1;
      } else {
        var ys;
        ys, t := DrainWorker(s1, m - 1);
        RunConcat(s, xs, s1, ys, t);
        steps := xs + ys;
        forall w | 0 <= w < m - 1 && !Halted(s, w) ensures Drained(t, w) {
          StaysDrained(s1, t, m - 1, w);
        }
      }
    }
  }

  /** Before shutdown nobody has halted. */
  lemma DrainAll(s: State) returns (steps: seq<Step>, t: State)
    requires Inv(s) && !s.shutdown
    ensures Run(s, steps, t) && Inv(t) && |t.workers| == |s.workers|
    ensures t == s.(ring := s.ring.(gates := t.ring.gates), workers := t.workers)
    ensures forall w :: 0 <= w < |s.workers| ==> Drained(t, w)
  {
    assert forall w :: 0 <= w < |s.workers| ==> !Halted(s, w);
    steps, t := DrainLive(s, |s.workers|);
  }

  // ---- When the pipeline is stuck ----

  predicate GateHasRoom(s: State, w: nat)
    requires w < |s.ring.gates|
  {
    s.ring.claim + 1 - s.ring.gates[w] < |s.ring.slots|
  }

  lemma DrainedHasRoom(s: State, w: nat)
    requires Inv(s) && s.producer.Idle? && |s.workers| < |s.ring.slots| && w < |s.workers| && Drained(s, w)
    ensures GateHasRoom(s, w)
  {
    assert WorkerOk(s.workers[w], w, |s.workers|, s.ring.gates[w], s.ring.cursor, s.log);
  }

  ghost predicate CanPublish(s: State) {
    exists steps: seq<Step>, t: State :: Run(s, steps, t) && s.log < t.log
  }

  /** The only things that can keep an event out are halted workers whose gates leave no room. */
  lemma PublishPastHalted(s: State, e: Event) returns (steps: seq<Step>, t: State)
    requires Inv(s) && s.producer.Idle? && |s.workers| < |s.ring.slots|
    requires forall w :: 0 <= w < |s.workers| && Halted(s, w) ==> GateHasRoom(s, w)
    ensures Run(s, steps, t) && t.producer.Idle? && t.log == s.log + [e] && t.ring.cursor == |s.log|
    ensures t.shutdown == s.shutdown
  {
    var xs, s1 := DrainLive(s, |s.workers|);
    forall w | 0 <= w < |s1.ring.gates| ensures GateHasRoom(s1, w) {
      if Halted(s, w) {
        assert GateHasRoom(s, w);
      } else {
        DrainedHasRoom(s1, w);
      }
    }
    assert HasRoom(s1) by {
      forall j | 0 <= j < |s1.ring.gates| ensures s1.ring.claim + 1 - s1.ring.gates[j] < |s1.ring.slots| {
        assert GateHasRoom(s1, j);
      }
    }
    var ys := PublishAlone(s1, e);
    t := Published(s1, e);
    RunConcat(s, xs, s1, ys, t);
    steps := xs + ys;
  }

  /** A halted worker without room, and a producer that has not got past looking at its gate. */
  ghost predicate Blocked(s: State, w: nat) {
    && w < |s.workers| && w < |s.ring.gates| && Halted(s, w) && !GateHasRoom(s, w)
    && !s.producer.Ready?
  }

  lemma StepKeepsBlocked(s: State, step: Step, w: nat)
    requires Inv(s) && Blocked(s, w) && Enabled(s, step)
    ensures Blocked(Apply(s, step), w) && Apply(s, step).log == s.log
  {
  }

  lemma {:induction false} RunKeepsBlocked(s: State, steps: seq<Step>, t: State, w: nat)
    requires Inv(s) && Blocked(s, w) && Run(s, steps, t)
    ensures t.log == s.log
    decreases |steps|
  {
    if steps != [] {
      StepKeepsInv(s, steps[0]);
      StepKeepsBlocked(s, steps[0], w);
      RunKeepsBlocked(Apply(s, steps[0]), steps[1..], t, w);
    }
  }

  /** A producer in the middle of a call finishes it first. */
  lemma PublishFromAnywhere(s: State, e: Event) returns (steps: seq<Step>, t: State)
    requires Inv(s) && |s.workers| < |s.ring.slots|
    requires s.producer.Ready? || forall w :: 0 <= w < |s.workers| && Halted(s, w) ==> GateHasRoom(s, w)
    ensures Run(s, steps, t) && s.log < t.log
  {
    if s.producer.Ready? {
      steps := FinishPublish(s);
      t := Published(s, s.producer.event);
    } else if s.producer.Idle? {
      steps, t := PublishPastHalted(s, e);
    } else {
      var xs, s1;
      if s.producer.Scanning? {
        xs, s1 := FinishScan(s);
      } else {
        xs, s1 := FinishWrite(s);
      }
      RunKeepsInv(s, xs, s1);
      var ys;
      if s1.producer.Ready? {
        ys := FinishPublish(s1);
        t := Published(s1, s1.producer.event);
      } else {
        assert forall w :: 0 <= w < |s1.workers| && Halted(s1, w) ==> Halted(s, w) && GateHasRoom(s, w);
        ys, t := PublishPastHalted(s1, e);
      }
      RunConcat(s, xs, s1, ys, t);
      steps := xs + ys;
    }
  }

  /** With fewer workers than slots, another event can be published from a reachable state if and only
      if the producer has already found room, or no halted worker's gate is a lap behind. */
  lemma StuckOnlyBehindHalted(slots: seq<Event>, n: nat, s: State)
    requires 0 < n < |slots| && Reachable(slots, n, s) && Shaped(s)
    ensures CanPublish(s) <==>
              s.producer.Ready? || forall w :: 0 <= w < |s.workers| && Halted(s, w) ==> GateHasRoom(s, w)
  {
    ReachableInv(slots, n, s);
    if s.producer.Ready? || forall w :: 0 <= w < |s.workers| && Halted(s, w) ==> GateHasRoom(s, w) {
      var steps, t := PublishFromAnywhere(s, slots[0]);
      assert Run(s, steps, t) && s.log < t.log;
    } else if CanPublish(s) {
      var w: nat :| w < |s.workers| && Halted(s, w) && !GateHasRoom(s, w);
      var steps: seq<Step>, t: State :| Run(s, steps, t) && s.log < t.log;
      RunKeepsBlocked(s, steps, t, w);
    }
  }

  /** Before shutdown no reachable state is stuck: for any event there is a continuation that publishes
      it. */
  lemma NeverStuck(slots: seq<Event>, n: nat, s: State, e: Event) returns (steps: seq<Step>, t: State)
    requires 0 < n < |slots| && Reachable(slots, n, s) && !s.shutdown
    ensures Run(s, steps, t)
    ensures t.producer.Idle? && s.log < t.log && t.log[|t.log| - 1] == e && t.ring.cursor == |t.log| - 1
    ensures !t.shutdown
  {
    ReachableInv(slots, n, s);
    var xs, s1 := FinishCall(s);
    RunKeepsInv(s, xs, s1);
    assert forall w :: 0 <= w < |s1.workers| ==> !Halted(s1, w);
    var ys;
    ys, t := PublishPastHalted(s1, e);
    RunConcat(s, xs, s1, ys, t);
    steps := xs + ys;
  }

  /** Publishing goes on for ever whether or not anybody drains the results: the ring's capacity
      puts no bound on how many published sequences still await one. */
  lemma {:induction false} PublishesForever(slots: seq<Event>, n: nat, m: nat, e: Event) returns (s: State)
    requires 0 < n < |slots|
    ensures Reachable(slots, n, s) && !s.shutdown && s.ring.cursor >= m - 1
    decreases m
  {
    if m == 0 {
      s := Init(slots, n);
      assert Run(s, [], s);
    } else {
      var s0 := PublishesForever(slots, n, m - 1, e);
      ReachableInv(slots, n, s0);
      var steps;
      steps, s := NeverStuck(slots, n, s0, e);
      ReachableConcat(slots, n, s0, steps, s);
    }
  }

  ghost predicate Choked(s: State) {
    && |s.workers| > 0 && |s.ring.gates| > 0
    && s.ring.gates[0] == INITIAL_VALUE && s.workers[0].seqNo == INITIAL_VALUE
    && s.ring.claim <= |s.ring.slots| - 2
  }

  lemma StepKeepsChoked(s: State, step: Step)
    requires Inv(s) && Choked(s) && |s.workers| >= |s.ring.slots| && Enabled(s, step)
    ensures Choked(Apply(s, step))
  {
    assert WorkerOk(s.workers[0], 0, |s.workers|, s.ring.gates[0], s.ring.cursor, s.log);
  }

  lemma {:induction false} RunKeepsChoked(s: State, steps: seq<Step>, t: State)
    requires Inv(s) && Choked(s) && |s.workers| >= |s.ring.slots| && Run(s, steps, t)
    ensures Choked(t) && |t.ring.slots| == |s.ring.slots|
    decreases |steps|
  {
    if steps != [] {
      StepKeepsInv(s, steps[0]);
      StepKeepsChoked(s, steps[0]);
      RunKeepsChoked(Apply(s, steps[0]), steps[1..], t);
    }
  }

  /** With as many workers as slots, or more, the pipeline accepts at most `capacity - 1` events in
      its whole life: worker 0's first sequence is never published, so its gate never moves. */
  lemma TooManyWorkersChoke(slots: seq<Event>, n: nat, s: State)
    requires 1 <= |slots| <= n && Reachable(slots, n, s)
    ensures |s.log| <= |slots| - 1 && |s.workers| == n && s.workers[0].handled == []
  {
    var steps: seq<Step> :| Run(Init(slots, n), steps, s);
    InitInv(slots, n);
    RunKeepsChoked(Init(slots, n), steps, s);
    ReachableInv(slots, n, s);
    assert WorkerOk(s.workers[0], 0, n, s.ring.gates[0], s.ring.cursor, s.log);
    StrideIs(0, n, |s.workers[0].handled|);
    if |s.workers[0].handled| > 0 {
      MulMono(1, |s.workers[0].handled|, n);
    }
  }

  // ---- Everything published is handled, except the first n - 1 sequences ----

  lemma {:induction false} StrideHits(w: nat, n: nat, m: nat, q: int) returns (i: nat)
    requires w < n && q >= n - 1 && (q + 1) % n == w && q <= Stride(w, n, m)
    ensures 1 <= i <= m && Stride(w, n, i) == q
    decreases m
  {
    StrideIs(w, n, m);
    i := (q + 1) / n;
    StrideIs(w, n, i);
    assert q + 1 == i * n + w;
    if i > m {
      MulMono(m + 1, i, n);
      MulDist(m, 1, n);
    }
    if i < 1 {
      MulMono(i, 0, n);
    }
  }

  /** From any state before shutdown the workers can go on to handle every published sequence from
      `n - 1` upwards, each by worker `(q + 1) mod n`. */
  lemma DrainHandlesEverything(slots: seq<Event>, n: nat, s: State) returns (steps: seq<Step>, t: State)
    requires |slots| > 0 && n > 0 && Reachable(slots, n, s) && !s.shutdown
    ensures Run(s, steps, t) && t.log == s.log && t.ring.cursor == s.ring.cursor < |s.log| && |t.workers| == n
    ensures forall q :: n - 1 <= q <= s.ring.cursor ==>
              Handled(q, s.log[q]) in t.workers[(q + 1) % n].handled
  {
    ReachableInv(slots, n, s);
    steps, t := DrainAll(s);
    forall q | n - 1 <= q <= s.ring.cursor
      ensures Handled(q, s.log[q]) in t.workers[(q + 1) % n].handled
    {
      var w := (q + 1) % n;
      var k := t.workers[w];
      assert Drained(t, w);
      assert WorkerOk(k, w, n, t.ring.gates[w], t.ring.cursor, t.log);
      OwnerOf(k, w, n, t.ring.gates[w], t.ring.cursor, t.log);
      if q > k.seqNo {
        ModInjective(q + 1, k.seqNo + 1, n);
      }
      var i := StrideHits(w, n, |k.handled|, q);
      assert HandledOk(k.handled[i - 1], Stride(w, n, i), t.ring.cursor, t.log);
    }
  }

  // ---- Shutdown ----

  /** A worker about to test the shutdown flag leaves as soon as it is set. */
  lemma LeavesOnStop(s: State, w: nat) returns (t: State)
    requires Enabled(s, TestStop(w))
    ensures Run(s, [Stop] + [TestStop(w)], t)
    ensures t == s.(shutdown := true, workers := s.workers[w := s.workers[w].(pc := Stopped(s.workers[w].pc.c))])
  {
    var s' := Apply(s, Stop);
    t := Apply(s', TestStop(w));
    RunOne(s', TestStop(w));
    RunCons(s, Stop, [TestStop(w)], t);
  }

  /** The single-worker loss does happen: the worker loads an empty cursor, an event is published,
      `stop` is called, and the worker leaves without looking at the cursor again. */
  lemma LostAfterStop(slots: seq<Event>, e: Event) returns (s: State)
    requires |slots| >= 2
    ensures Reachable(slots, 1, s) && |s.workers| == 1 && s.workers[0].pc.Stopped?
    ensures s.ring.cursor == 0 && s.log == [e] && s.workers[0].handled == []
  {
    var s0 := Init(slots, 1);
    InitInv(slots, 1);
    StepKeepsInv(s0, LoadCursor(0));
    var s1 := Apply(s0, LoadCursor(0));
    var xs := PublishAlone(s1, e);
    s := LeavesOnStop(Published(s1, e), 0);
    RunConcat(s1, xs, Published(s1, e), [Stop] + [TestStop(0)], s);
    RunCons(s0, LoadCursor(0), xs + ([Stop] + [TestStop(0)]), s);
  }

  ghost predicate Parked(s: State, w: nat)
    requires Shaped(s) && w < |s.workers|
  {
    && s.ring.cursor > w - 1 && (s.ring.cursor + 1) % |s.workers| != w
    && !s.workers[w].pc.CheckStop? && !s.workers[w].pc.Stopped?
  }

  lemma ParkedStep(s: State, step: Step, w: nat)
    requires Inv(s) && Enabled(s, step) && w < |s.workers| && Parked(s, w)
    requires Apply(s, step).ring.cursor == s.ring.cursor
    ensures Parked(Apply(s, step), w)
  {
    OwnerOf(s.workers[w], w, |s.workers|, s.ring.gates[w], s.ring.cursor, s.log);
  }

  lemma {:induction false} ParkedStaysParked(s: State, steps: seq<Step>, t: State, w: nat)
    requires Inv(s) && Run(s, steps, t) && w < |s.workers| && s.ring.cursor == t.ring.cursor && Parked(s, w)
    ensures w < |t.workers| && !t.workers[w].pc.Stopped?
    decreases |steps|
  {
    if steps != [] {
      var s' := Apply(s, steps[0]);
      StepKeepsInv(s, steps[0]);
      CursorGrows(s, [steps[0]], s') by { RunOne(s, steps[0]); }
      CursorGrows(s', steps[1..], t);
      ParkedStep(s, steps[0], w);
      ParkedStaysParked(s', steps[1..], t, w);
    }
  }

  lemma {:induction false} CursorGrows(s: State, steps: seq<Step>, t: State)
    requires Inv(s) && Run(s, steps, t)
    ensures s.ring.cursor <= t.ring.cursor
    decreases |steps|
  {
    if steps != [] {
      StepKeepsInv(s, steps[0]);
      CursorGrows(Apply(s, steps[0]), steps[1..], t);
    }
  }

  ghost predicate CanStop(s: State, w: nat) {
    exists steps: seq<Step>, t: State ::
      Run(s, steps, t) && t.ring.cursor == s.ring.cursor && w < |t.workers| && t.workers[w].pc.Stopped?
  }

  lemma StopAlone(s: State, w: nat) returns (steps: seq<Step>, t: State)
    requires Inv(s) && w < |s.workers| && s.workers[w].pc.Top? && s.ring.cursor <= s.workers[w].seqNo
    ensures Run(s, steps, t) && t.ring.cursor == s.ring.cursor && w < |t.workers| && t.workers[w].pc.Stopped?
  {
    var s2 := Apply(s, LoadCursor(w));
    var s3 := Apply(s2, Stop);
    t := Apply(s3, TestStop(w));
    RunOne(s3, TestStop(w));
    RunCons(s2, Stop, [TestStop(w)], t);
    steps := [LoadCursor(w)] + ([Stop] + [TestStop(w)]);
    RunCons(s, LoadCursor(w), [Stop] + [TestStop(w)], t);
  }

  lemma StopsAtItsStride(slots: seq<Event>, n: nat, s: State, w: nat)
    requires |slots| > 0 && n > 0 && Reachable(slots, n, s) && w < n && |s.workers| == n
    requires !s.workers[w].pc.CheckStop? && !s.workers[w].pc.Stopped?
    requires s.ring.cursor <= w - 1 || (s.ring.cursor + 1) % n == w
    ensures CanStop(s, w)
  {
    ReachableInv(slots, n, s);
    var xs, s1 := DrainWorker(s, w);
    var k := s1.workers[w];
    assert WorkerOk(k, w, n, s1.ring.gates[w], s1.ring.cursor, s1.log);
    OwnerOf(k, w, n, s1.ring.gates[w], s1.ring.cursor, s1.log);
    StrideAbove(w, n, |k.handled|);
    if k.seqNo < s1.ring.cursor {
      ModInjective(k.seqNo + 1, s1.ring.cursor + 1, n);
    }
    var ys, t := StopAlone(s1, w);
    RunConcat(s, xs, s1, ys, t);
  }

  lemma StrideAbove(w: nat, n: nat, i: nat)
    ensures Stride(w, n, i) >= w - 1
  {}

  lemma LeavingCanStop(s: State, w: nat)
    requires Inv(s) && w < |s.workers| && (s.workers[w].pc.CheckStop? || s.workers[w].pc.Stopped?)
    ensures CanStop(s, w)
  {
    if s.workers[w].pc.Stopped? {
      assert Run(s, [], s);
    } else {
      var t := LeavesOnStop(s, w);
      assert t.ring.cursor == s.ring.cursor && t.workers[w].pc.Stopped?;
    }
  }

  /** Once publishing has ended, a worker can leave its loop if and only if it has left or is about to
      test the shutdown flag, or the final cursor is on its own stride or has not reached its start.
      Every other worker spins for ever, so with two or more workers at most one of those below the
      cursor can be joined. */
  lemma ShutdownReaches(slots: seq<Event>, n: nat, s: State, w: nat)
    requires |slots| > 0 && n > 0 && Reachable(slots, n, s) && w < n && |s.workers| == n
    ensures CanStop(s, w) <==>
              || s.workers[w].pc.CheckStop? || s.workers[w].pc.Stopped?
              || s.ring.cursor <= w - 1 || (s.ring.cursor + 1) % n == w
  {
    ReachableInv(slots, n, s);
    if s.workers[w].pc.CheckStop? || s.workers[w].pc.Stopped? {
      LeavingCanStop(s, w);
    } else if s.ring.cursor <= w - 1 || (s.ring.cursor + 1) % n == w {
      StopsAtItsStride(slots, n, s, w);
    } else if CanStop(s, w) {
      var steps: seq<Step>, t: State :|
        Run(s, steps, t) && t.ring.cursor == s.ring.cursor && w < |t.workers| && t.workers[w].pc.Stopped?;
      ParkedStaysParked(s, steps, t, w);
    }
  }

  // ---- What a stopped worker has done ----

  lemma {:induction false} StrideRises(w: nat, n: nat, i: nat, j: nat)
    requires i <= j
    ensures Stride(w, n, i) <= Stride(w, n, j)
    decreases j
  {
    if i < j {
      StrideRises(w, n, i, j - 1);
    }
  }

  /** A sequence worker `w` is responsible for. */
  predicate Owns(w: nat, n: nat, q: int)
    requires n > 0
  {
    q >= n - 1 && (q + 1) % n == w
  }

  /** A worker that has reached its `m`-th stride has handled all its sequences up to there. */
  lemma HandledUpTo(k: Worker, w: nat, n: nat, gate: int, cursor: int, log: seq<Event>, q: int)
    requires w < n && WorkerOk(k, w, n, gate, cursor, log) && Owns(w, n, q) && q <= k.seqNo
    ensures q < |log| && Handled(q, log[q]) in k.handled
  {
    var i := StrideHits(w, n, |k.handled|, q);
    assert HandledOk(k.handled[i - 1], Stride(w, n, i), cursor, log);
  }

  lemma HandledAtMost(k: Worker, w: nat, n: nat, gate: int, cursor: int, log: seq<Event>, i: nat)
    requires w < n && WorkerOk(k, w, n, gate, cursor, log) && i < |k.handled|
    ensures k.handled[i].sequence <= k.seqNo && k.seqNo > w - 1
  {
    assert HandledOk(k.handled[i], Stride(w, n, i + 1), cursor, log);
    StrideRises(w, n, i + 1, |k.handled|);
    StrideRises(w, n, 1, |k.handled|);
    assert Stride(w, n, 1) == Stride(w, n, 0) + n;
  }

  /** With any number of workers, a stopped one has handled exactly its own sequences up to the last
      cursor `c` it read; it lost nothing if and only if none of its own was published since. */
  lemma StoppedWorkerDidItsStrides(slots: seq<Event>, n: nat, s: State, w: nat)
    requires |slots| > 0 && n > 0 && Reachable(slots, n, s) && w < n && |s.workers| == n && s.workers[w].pc.Stopped?
    ensures s.workers[w].pc.c <= s.ring.cursor < |s.log|
    ensures forall i :: 0 <= i < |s.workers[w].handled| ==> s.workers[w].handled[i].sequence <= s.workers[w].pc.c
    ensures forall q :: 0 <= q <= s.ring.cursor && Owns(w, n, q) ==>
              (Handled(q, s.log[q]) in s.workers[w].handled <==> q <= s.workers[w].pc.c)
  {
    ReachableInv(slots, n, s);
    var k, c := s.workers[w], s.workers[w].pc.c;
    assert WorkerOk(k, w, n, s.ring.gates[w], s.ring.cursor, s.log);
    forall i | 0 <= i < |k.handled| ensures k.handled[i].sequence <= c {
      HandledAtMost(k, w, n, s.ring.gates[w], s.ring.cursor, s.log, i);
    }
    forall q | 0 <= q <= s.ring.cursor && Owns(w, n, q) && q <= c ensures Handled(q, s.log[q]) in k.handled {
      HandledUpTo(k, w, n, s.ring.gates[w], s.ring.cursor, s.log, q);
    }
  }
}
