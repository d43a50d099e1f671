/**
 The prefetch workers of the dataloader: they claim slices of the index list through one shared cursor,
 number their batches through another counter, and send them to one receiver.
 */
module Dataloader {

  datatype Pc = Top | Claimed | Decoded | Numbered | Done

  /** A worker between the atomic operations of its loop, with the slice it last claimed. */
  datatype Worker = Worker(pc: Pc, start: nat, slice: seq<nat>, ok: bool, id: nat)

  /** A message in the channel: a batch, or the error that decoding its slice ended with. */
  datatype Message = Message(start: nat, slice: seq<nat>, ok: bool, id: nat)

  /** `bad` are the samples that cannot be loaded. */
  datatype State = State(indices: seq<nat>, bad: set<nat>, batch: nat, cursor: nat, nextId: nat, alive: bool,
                         workers: seq<Worker>, sent: seq<Message>)

  datatype Step =
    | Claim(w: nat)
    | Decode(w: nat, panic: bool)        // the blocking task loads the slice, or panics
    | TakeId(w: nat)
    | Send(w: nat)
    | DropReceiver

  ghost predicate Init(s: State) {
    && s.batch > 0 && s.cursor == 0 && s.nextId == 0 && s.alive && s.sent == []
    && forall w :: 0 <= w < |s.workers| ==> s.workers[w].pc == Top
  }

  predicate Enabled(s: State, st: Step) {
    if st.DropReceiver? then s.alive
    else
      && st.w < |s.workers|
      && s.workers[st.w].pc == match st
                               case Claim(_) => Top
                               case Decode(_, _) => Claimed
                               case TakeId(_) => Decoded
                               case Send(_) => Numbered
  }

  function Clip(indices: seq<nat>, k: nat): nat {
    if k <= |indices| then k else |indices|
  }

  function Slice(indices: seq<nat>, batch: nat, start: nat): seq<nat> {
    indices[Clip(indices, start)..Clip(indices, start + batch)]
  }

  /** Every sample of the slice can be loaded. */
  predicate Loads(slice: seq<nat>, bad: set<nat>) {
    forall i :: 0 <= i < |slice| ==> slice[i] !in bad
  }

  function WorkerAfter(s: State, st: Step): Worker
    requires Enabled(s, st) && !st.DropReceiver?
  {
    var w := s.workers[st.w];
    match st
    case Claim(_) =>
      if s.cursor >= |s.indices| then w.(pc := Done)
      else w.(pc := Claimed, start := s.cursor, slice := Slice(s.indices, s.batch, s.cursor))
    case Decode(_, panic) => w.(pc := Decoded, ok := !panic && Loads(w.slice, s.bad))
    case TakeId(_) => w.(pc := Numbered, id := s.nextId)
    case Send(_) => w.(pc := if s.alive then Top else Done)
  }

  function Apply(s: State, st: Step): State
    requires Enabled(s, st)
  {
    if st.DropReceiver? then s.(alive := false) else
      var w := s.workers[st.w];
      s.(workers := s.workers[st.w := WorkerAfter(s, st)],
         cursor := if st.Claim? then s.cursor + s.batch else s.cursor,
         nextId := if st.TakeId? then s.nextId + 1 else s.nextId,
         sent := if st.Send? && s.alive then s.sent + [Message(w.start, w.slice, w.ok, w.id)] else s.sent)
  }

  ghost predicate Run(s: State, steps: seq<Step>, s': State)
    decreases |steps|
  {
    if steps == [] then s' == s
    else Enabled(s, steps[0]) && Run(Apply(s, steps[0]), steps[1..], s')
  }

  predicate AllDone(s: State) {
    forall w :: 0 <= w < |s.workers| ==> s.workers[w].pc == Done
  }

  // ---- What was delivered ----

  predicate Holds(w: Worker) {
    w.pc in {Claimed, Decoded, Numbered}
  }

  /** How often a sample occurs. */
  function Times(slice: seq<nat>, x: nat): nat {
    multiset(slice)[x]
  }

  lemma TimesConcat(a: seq<nat>, b: seq<nat>, x: nat)
    ensures Times(a + b, x) == Times(a, x) + Times(b, x)
  {
  }

  function InHand(w: Worker, x: nat): nat {
    if Holds(w) then Times(w.slice, x) else 0
  }

  /** How often a sample was sent, in Ok or Err messages. */
  function Delivered(sent: seq<Message>, x: nat): nat {
    if sent == [] then 0 else Delivered(sent[..|sent| - 1], x) + Times(sent[|sent| - 1].slice, x)
  }

  /** The slices in the order they were sent. */
  function Joined(sent: seq<Message>): seq<nat> {
    if sent == [] then [] else Joined(sent[..|sent| - 1]) + sent[|sent| - 1].slice
  }

  lemma SentOneMore(sent: seq<Message>, m: Message, x: nat)
    ensures Delivered(sent + [m], x) == Delivered(sent, x) + Times(m.slice, x)
    ensures Joined(sent + [m]) == Joined(sent) + m.slice
  {
    assert (sent + [m])[..|sent|] == sent;
  }

  function InFlight(ws: seq<Worker>, n: nat, x: nat): nat
    requires n <= |ws|
  {
    if n == 0 then 0 else InFlight(ws, n - 1, x) + InHand(ws[n - 1], x)
  }

  lemma {:induction false} InFlightUpdate(ws: seq<Worker>, n: nat, k: nat, w: Worker, x: nat)
    requires n <= |ws| && k < |ws|
    ensures InFlight(ws[k := w], n, x) == InFlight(ws, n, x) + if k < n then InHand(w, x) - InHand(ws[k], x) else 0
    decreases n
  {
    if n > 0 {
      InFlightUpdate(ws, n - 1, k, w, x);
    }
  }

  // ---- Exactly once ----

  /** As long as the receiver lives, what was sent and what workers hold is what the cursor passed, and
      a worker stops only at the end of the list. */
  ghost predicate Accounted(s: State, x: nat) {
    && s.batch > 0
    && (s.alive ==> Delivered(s.sent, x) + InFlight(s.workers, |s.workers|, x) == Passed(s.indices, s.cursor, x))
    && (s.alive ==> forall w :: 0 <= w < |s.workers| && s.workers[w].pc == Done ==> s.cursor >= |s.indices|)
  }

  /** How often a sample occurs before a position of the cursor. */
  function Passed(indices: seq<nat>, cursor: nat, x: nat): nat {
    Times(indices[..Clip(indices, cursor)], x)
  }

  lemma SliceExtends(s: State, start: nat)
    ensures s.indices[..Clip(s.indices, start + s.batch)] == s.indices[..Clip(s.indices, start)] + Slice(s.indices, s.batch, start)
  {
  }

  lemma ClaimSplits(s: State, x: nat)
    ensures Passed(s.indices, s.cursor + s.batch, x) == Passed(s.indices, s.cursor, x) + Times(Slice(s.indices, s.batch, s.cursor), x)
  {
    SliceExtends(s, s.cursor);
    TimesConcat(s.indices[..Clip(s.indices, s.cursor)], Slice(s.indices, s.batch, s.cursor), x);
  }

  /** A step moves samples from the list to a worker and from a worker to the channel. */
  lemma StepBalance(s: State, st: Step, x: nat)
    requires Accounted(s, x) && Enabled(s, st) && Apply(s, st).alive
    ensures var s' := Apply(s, st);
            Delivered(s'.sent, x) + InFlight(s'.workers, |s'.workers|, x) == Passed(s.indices, s'.cursor, x)
  {
    InFlightUpdate(s.workers, |s.workers|, st.w, WorkerAfter(s, st), x);
    if st.Claim? {
      ClaimSplits(s, x);
      ClaimMoves(s, st, x);
    } else if st.Send? {
      var w := s.workers[st.w];
      SentOneMore(s.sent, Message(w.start, w.slice, w.ok, w.id), x);
    }
  }

  /** What a claim puts into the worker's hand; past the end the slice is empty. */
  lemma ClaimMoves(s: State, st: Step, x: nat)
    requires Enabled(s, st) && st.Claim?
    ensures InHand(WorkerAfter(s, st), x) - InHand(s.workers[st.w], x) == Times(Slice(s.indices, s.batch, s.cursor), x)
  {
  }

  lemma StepKeepsAccounted(s: State, st: Step, x: nat)
    requires Accounted(s, x) && Enabled(s, st)
    ensures Accounted(Apply(s, st), x)
  {
    if Apply(s, st).alive {
      StepBalance(s, st, x);
    }
  }

  lemma {:induction false} RunKeepsAccounted(s: State, steps: seq<Step>, s': State, x: nat)
    requires Accounted(s, x) && Run(s, steps, s')
    ensures Accounted(s', x) && s'.indices == s.indices && |s'.workers| == |s.workers|
    decreases |steps|
  {
    if steps != [] {
      StepKeepsAccounted(s, steps[0], x);
      RunKeepsAccounted(Apply(s, steps[0]), steps[1..], s', x);
    }
  }

  lemma {:induction false} NothingInFlight(ws: seq<Worker>, n: nat, x: nat)
    requires n <= |ws| && forall w :: 0 <= w < n ==> !Holds(ws[w])
    ensures InFlight(ws, n, x) == 0
    decreases n
  {
    if n > 0 {
      NothingInFlight(ws, n - 1, x);
    }
  }

  /** Once all workers are done and the receiver never went away, every sample was sent as often as the
      index list names it. */
  lemma EveryIndexOnce(s: State, steps: seq<Step>, s': State, x: nat)
    requires Init(s) && Run(s, steps, s') && AllDone(s') && s'.alive && |s.workers| > 0
    ensures Delivered(s'.sent, x) == Times(s.indices, x)
  {
    NothingInFlight(s.workers, |s.workers|, x);
    RunKeepsAccounted(s, steps, s', x);
    NothingInFlight(s'.workers, |s'.workers|, x);
    assert s'.workers[0].pc == Done;
    assert s.indices[..Clip(s.indices, s'.cursor)] == s.indices;
  }

  /** The indices of a dataset of `n` samples, in order. */
  function Range(n: nat): seq<nat> {
    if n == 0 then [] else Range(n - 1) + [n - 1]
  }

  lemma {:induction false} RangeTimes(n: nat, x: nat)
    ensures Times(Range(n), x) == if x < n then 1 else 0
  {
    if n > 0 {
      RangeTimes(n - 1, x);
      TimesConcat(Range(n - 1), [n - 1], x);
    }
  }

  /** Sequential or shuffled, a whole epoch sends every sample of the dataset exactly once. */
  lemma EpochSendsEachSampleOnce(n: nat, s: State, steps: seq<Step>, s': State, x: nat)
    requires Init(s) && multiset(s.indices) == multiset(Range(n))
    requires Run(s, steps, s') && AllDone(s') && s'.alive && |s.workers| > 0
    ensures Delivered(s'.sent, x) == if x < n then 1 else 0
  {
    EveryIndexOnce(s, steps, s', x);
    RangeTimes(n, x);
  }

  /** Without workers nothing is ever sent. */
  lemma {:induction false} NoWorkersNoMessages(s: State, steps: seq<Step>, s': State)
    requires |s.workers| == 0 && s.sent == [] && Run(s, steps, s')
    ensures s'.sent == []
    decreases |steps|
  {
    if steps != [] {
      NoWorkersNoMessages(Apply(s, steps[0]), steps[1..], s');
    }
  }

  // ---- Disjoint slices, distinct ids ----

  /** Two claims do not touch. */
  predicate Apart(batch: nat, a: nat, b: nat) {
    a + batch <= b || b + batch <= a
  }

  ghost predicate ClaimsApart(s: State) {
    && (forall i :: 0 <= i < |s.sent| ==> s.sent[i].start + s.batch <= s.cursor)
    && (forall w :: 0 <= w < |s.workers| && Holds(s.workers[w]) ==> s.workers[w].start + s.batch <= s.cursor)
    && (forall i, j :: 0 <= i < j < |s.sent| ==> Apart(s.batch, s.sent[i].start, s.sent[j].start))
    && (forall i, w :: 0 <= i < |s.sent| && 0 <= w < |s.workers| && Holds(s.workers[w]) ==>
          Apart(s.batch, s.sent[i].start, s.workers[w].start))
    && (forall v, w :: 0 <= v < w < |s.workers| && Holds(s.workers[v]) && Holds(s.workers[w]) ==>
          Apart(s.batch, s.workers[v].start, s.workers[w].start))
  }

  ghost predicate IdsDistinct(s: State) {
    && (forall i :: 0 <= i < |s.sent| ==> s.sent[i].id < s.nextId)
    && (forall w :: 0 <= w < |s.workers| && s.workers[w].pc == Numbered ==> s.workers[w].id < s.nextId)
    && (forall i, j :: 0 <= i < j < |s.sent| ==> s.sent[i].id != s.sent[j].id)
    && (forall i, w :: 0 <= i < |s.sent| && 0 <= w < |s.workers| && s.workers[w].pc == Numbered ==>
          s.sent[i].id != s.workers[w].id)
    && (forall v, w :: 0 <= v < w < |s.workers| && s.workers[v].pc == Numbered && s.workers[w].pc == Numbered ==>
          s.workers[v].id != s.workers[w].id)
  }

  lemma ClaimKeepsApart(s: State, st: Step)
    requires ClaimsApart(s) && Enabled(s, st) && st.Claim?
    ensures ClaimsApart(Apply(s, st))
  {
  }

  lemma SendKeepsApart(s: State, st: Step)
    requires ClaimsApart(s) && Enabled(s, st) && st.Send?
    ensures ClaimsApart(Apply(s, st))
  {
    var s' := Apply(s, st);
    forall v | 0 <= v < |s.workers| && v != st.w && Holds(s.workers[v])
      ensures Apart(s.batch, s.workers[v].start, s.workers[st.w].start)
    {
    }
    assert forall v :: 0 <= v < |s.workers| && v != st.w ==> s'.workers[v] == s.workers[v];
  }

  lemma StepKeepsApart(s: State, st: Step)
    requires ClaimsApart(s) && Enabled(s, st)
    ensures ClaimsApart(Apply(s, st))
  {
    if st.Claim? {
      ClaimKeepsApart(s, st);
    } else if st.Send? {
      SendKeepsApart(s, st);
    } else if !st.DropReceiver? {
      var s' := Apply(s, st);
      assert forall v :: 0 <= v < |s.workers| ==>
          Holds(s'.workers[v]) == Holds(s.workers[v]) && s'.workers[v].start == s.workers[v].start;
    }
  }

  lemma StepKeepsIds(s: State, st: Step)
    requires IdsDistinct(s) && Enabled(s, st)
    ensures IdsDistinct(Apply(s, st))
  {
    if !st.DropReceiver? {
      var s' := Apply(s, st);
      assert forall v :: 0 <= v < |s.workers| && v != st.w ==> s'.workers[v] == s.workers[v];
    }
  }

  lemma {:induction false} RunKeepsApart(s: State, steps: seq<Step>, s': State)
    requires ClaimsApart(s) && IdsDistinct(s) && Run(s, steps, s')
    ensures ClaimsApart(s') && IdsDistinct(s')
    decreases |steps|
  {
    if steps != [] {
      StepKeepsApart(s, steps[0]);
      StepKeepsIds(s, steps[0]);
      RunKeepsApart(Apply(s, steps[0]), steps[1..], s');
    }
  }

  /** Every slice is the part of the index list its start says. */
  ghost predicate SlicesOk(s: State) {
    && (forall i :: 0 <= i < |s.sent| ==> s.sent[i].slice == Slice(s.indices, s.batch, s.sent[i].start) && s.sent[i].start < |s.indices|)
    && (forall w :: 0 <= w < |s.workers| && Holds(s.workers[w]) ==>
          s.workers[w].slice == Slice(s.indices, s.batch, s.workers[w].start) && s.workers[w].start < |s.indices|)
  }

  lemma StepKeepsSlices(s: State, st: Step)
    requires SlicesOk(s) && Enabled(s, st)
    ensures SlicesOk(Apply(s, st))
  {
    if !st.DropReceiver? {
      var s' := Apply(s, st);
      assert forall v :: 0 <= v < |s.workers| && v != st.w ==> s'.workers[v] == s.workers[v];
    }
  }

  lemma {:induction false} RunKeepsSlices(s: State, steps: seq<Step>, s': State)
    requires SlicesOk(s) && Run(s, steps, s')
    ensures SlicesOk(s') && s'.indices == s.indices && s'.batch == s.batch
    decreases |steps|
  {
    if steps != [] {
      StepKeepsSlices(s, steps[0]);
      RunKeepsSlices(Apply(s, steps[0]), steps[1..], s');
    }
  }

  /** In every reachable state each message carries the slice its start names, and no two messages share
      a position of the index list or a batch id. */
  lemma MessagesAreDisjoint(s: State, steps: seq<Step>, s': State, i: nat, j: nat)
    requires Init(s) && Run(s, steps, s') && i < j < |s'.sent|
    ensures s'.sent[i].slice == Slice(s'.indices, s'.batch, s'.sent[i].start) && s'.sent[j].slice == Slice(s'.indices, s'.batch, s'.sent[j].start)
    ensures forall x :: !(CoversPosition(s', s'.sent[i].start, x) && CoversPosition(s', s'.sent[j].start, x))
    ensures s'.sent[i].id != s'.sent[j].id
  {
    RunKeepsApart(s, steps, s');
    RunKeepsSlices(s, steps, s');
    assert Apart(s'.batch, s'.sent[i].start, s'.sent[j].start);
  }

  // ---- Every position exactly once ----

  predicate CoversPosition(s: State, start: nat, x: int) {
    start <= x < start + s.batch && x < |s.indices|
  }

  function Weight(batch: nat, start: nat, x: nat): nat {
    if start <= x < start + batch then 1 else 0
  }

  /** How many messages, and how many workers, hold position `x`. */
  function SentWeight(batch: nat, sent: seq<Message>, x: nat): nat {
    if sent == [] then 0 else SentWeight(batch, sent[..|sent| - 1], x) + Weight(batch, sent[|sent| - 1].start, x)
  }

  function HandWeight(batch: nat, w: Worker, x: nat): nat {
    if Holds(w) then Weight(batch, w.start, x) else 0
  }

  function HeldWeight(batch: nat, ws: seq<Worker>, n: nat, x: nat): nat
    requires n <= |ws|
  {
    if n == 0 then 0 else HeldWeight(batch, ws, n - 1, x) + HandWeight(batch, ws[n - 1], x)
  }

  lemma {:induction false} HeldWeightUpdate(batch: nat, ws: seq<Worker>, n: nat, k: nat, w: Worker, x: nat)
    requires n <= |ws| && k < |ws|
    ensures HeldWeight(batch, ws[k := w], n, x) ==
              HeldWeight(batch, ws, n, x) + if k < n then HandWeight(batch, w, x) - HandWeight(batch, ws[k], x) else 0
    decreases n
  {
    if n > 0 {
      HeldWeightUpdate(batch, ws, n - 1, k, w, x);
    }
  }

  ghost predicate PositionOk(s: State, x: nat) {
    s.alive ==> SentWeight(s.batch, s.sent, x) + HeldWeight(s.batch, s.workers, |s.workers|, x)
                == if x < s.cursor then 1 else 0
  }

  lemma StepKeepsPosition(s: State, st: Step, x: nat)
    requires PositionOk(s, x) && Enabled(s, st) && x < |s.indices|
    ensures PositionOk(Apply(s, st), x)
  {
    if Apply(s, st).alive {
      HeldWeightUpdate(s.batch, s.workers, |s.workers|, st.w, WorkerAfter(s, st), x);
      if st.Send? {
        var w := s.workers[st.w];
        var m := Message(w.start, w.slice, w.ok, w.id);
        assert (s.sent + [m])[..|s.sent|] == s.sent;
      }
    }
  }

  lemma {:induction false} RunKeepsPosition(s: State, steps: seq<Step>, s': State, x: nat)
    requires PositionOk(s, x) && Run(s, steps, s') && x < |s.indices|
    ensures PositionOk(s', x)
    decreases |steps|
  {
    if steps != [] {
      StepKeepsPosition(s, steps[0], x);
      RunKeepsPosition(Apply(s, steps[0]), steps[1..], s', x);
    }
  }

  lemma {:induction false} NoneHeld(batch: nat, ws: seq<Worker>, n: nat, x: nat)
    requires n <= |ws| && forall w :: 0 <= w < n ==> !Holds(ws[w])
    ensures HeldWeight(batch, ws, n, x) == 0
    decreases n
  {
    if n > 0 {
      NoneHeld(batch, ws, n - 1, x);
    }
  }

  lemma {:induction false} WeightOneIsSomewhere(batch: nat, sent: seq<Message>, x: nat) returns (i: nat)
    requires SentWeight(batch, sent, x) > 0
    ensures i < |sent| && Weight(batch, sent[i].start, x) == 1
    decreases |sent|
  {
    if Weight(batch, sent[|sent| - 1].start, x) == 1 {
      i := |sent| - 1;
    } else {
      i := WeightOneIsSomewhere(batch, sent[..|sent| - 1], x);
    }
  }

  /** Once all workers are done and the receiver never went away, every position of the index list is in
      exactly one message, at its place in the slice. */
  lemma EveryPositionOnce(s: State, steps: seq<Step>, s': State, x: nat) returns (i: nat)
    requires Init(s) && Run(s, steps, s') && AllDone(s') && s'.alive && |s.workers| > 0 && x < |s.indices|
    ensures i < |s'.sent| && s'.sent[i].start <= x < s'.sent[i].start + |s'.sent[i].slice|
    ensures s'.sent[i].slice[x - s'.sent[i].start] == s.indices[x]
    ensures forall j :: 0 <= j < |s'.sent| && j != i ==> !CoversPosition(s', s'.sent[j].start, x)
  {
    NoneHeld(s.batch, s.workers, |s.workers|, x);
    RunKeepsPosition(s, steps, s', x);
    RunKeepsSlices(s, steps, s');
    NoneHeld(s'.batch, s'.workers, |s'.workers|, x);
    CursorPassedEnd(s, steps, s');
    i := WeightOneIsSomewhere(s'.batch, s'.sent, x);
    forall j | 0 <= j < |s'.sent| && j != i ensures !CoversPosition(s', s'.sent[j].start, x) {
      MessagesAreDisjoint(s, steps, s', if i < j then i else j, if i < j then j else i);
    }
  }

  lemma CursorPassedEnd(s: State, steps: seq<Step>, s': State)
    requires Init(s) && Run(s, steps, s') && AllDone(s') && s'.alive && |s.workers| > 0
    ensures s'.cursor >= |s.indices|
  {
    NothingInFlight(s.workers, |s.workers|, 0);
    RunKeepsAccounted(s, steps, s', 0);
    assert s'.workers[0].pc == Done;
  }

  // ---- A dropped receiver ----

  function ClaimsIn(steps: seq<Step>): nat {
    if steps == [] then 0 else (if steps[0].Claim? then 1 else 0) + ClaimsIn(steps[1..])
  }

  /** How many of the first `n` workers may still claim. */
  function AtTop(ws: seq<Worker>, n: nat): nat
    requires n <= |ws|
  {
    if n == 0 then 0 else AtTop(ws, n - 1) + if ws[n - 1].pc == Top then 1 else 0
  }

  lemma {:induction false} AtTopUpdate(ws: seq<Worker>, n: nat, k: nat, w: Worker)
    requires n <= |ws| && k < |ws|
    ensures AtTop(ws[k := w], n) ==
              AtTop(ws, n) + if k < n then (if w.pc == Top then 1 else 0) - (if ws[k].pc == Top then 1 else 0) else 0
    decreases n
  {
    if n > 0 {
      AtTopUpdate(ws, n - 1, k, w);
    }
  }

  lemma {:induction false} AtTopBound(ws: seq<Worker>, n: nat)
    requires n <= |ws|
    ensures AtTop(ws, n) <= n
    decreases n
  {
    if n > 0 {
      AtTopBound(ws, n - 1);
    }
  }

  lemma {:induction false} ClaimsAfterDrop(s: State, steps: seq<Step>, s': State)
    requires !s.alive && Run(s, steps, s')
    ensures s'.sent == s.sent && ClaimsIn(steps) <= AtTop(s.workers, |s.workers|)
    decreases |steps|
  {
    if steps != [] {
      AtTopUpdate(s.workers, |s.workers|, steps[0].w, WorkerAfter(s, steps[0]));
      ClaimsAfterDrop(Apply(s, steps[0]), steps[1..], s');
    }
  }

  /** Once the receiver is dropped nothing more is sent, and every worker claims at most one more slice
      before it stops. */
  lemma DroppedReceiverStopsAll(s: State, steps: seq<Step>, s': State)
    requires !s.alive && Run(s, steps, s')
    ensures s'.sent == s.sent && ClaimsIn(steps) <= |s.workers|
  {
    ClaimsAfterDrop(s, steps, s');
    AtTopBound(s.workers, |s.workers|);
  }

  // ---- Ok and Err messages ----

  predicate NoPanic(steps: seq<Step>) {
    forall i :: 0 <= i < |steps| && steps[i].Decode? ==> !steps[i].panic
  }

  /** An outcome, with or without panics: Ok means that all samples loaded; without panics also the other
      way round. */
  predicate OutcomeOk(ok: bool, slice: seq<nat>, bad: set<nat>, calm: bool) {
    (ok ==> Loads(slice, bad)) && (calm && Loads(slice, bad) ==> ok)
  }

  ghost predicate OutcomesOk(s: State, calm: bool) {
    && (forall i :: 0 <= i < |s.sent| ==> OutcomeOk(s.sent[i].ok, s.sent[i].slice, s.bad, calm))
    && (forall w :: 0 <= w < |s.workers| && s.workers[w].pc in {Decoded, Numbered} ==>
          OutcomeOk(s.workers[w].ok, s.workers[w].slice, s.bad, calm))
  }

  lemma StepKeepsOutcomes(s: State, st: Step, calm: bool)
    requires OutcomesOk(s, calm) && Enabled(s, st) && (calm && st.Decode? ==> !st.panic)
    ensures OutcomesOk(Apply(s, st), calm)
  {
    if !st.DropReceiver? {
      var s' := Apply(s, st);
      assert forall v :: 0 <= v < |s.workers| && v != st.w ==> s'.workers[v] == s.workers[v];
    }
  }

  lemma {:induction false} RunKeepsOutcomes(s: State, steps: seq<Step>, s': State, calm: bool)
    requires OutcomesOk(s, calm) && Run(s, steps, s') && (calm ==> NoPanic(steps))
    ensures OutcomesOk(s', calm) && s'.bad == s.bad
    decreases |steps|
  {
    if steps != [] {
      StepKeepsOutcomes(s, steps[0], calm);
      RunKeepsOutcomes(Apply(s, steps[0]), steps[1..], s', calm);
    }
  }

  /** In every run an Ok message carries a slice whose samples all load; as long as no decoding task
      panics, a message is Ok exactly then. */
  lemma OkMeansLoaded(s: State, steps: seq<Step>, s': State, i: nat)
    requires Init(s) && Run(s, steps, s') && i < |s'.sent|
    ensures s'.sent[i].ok ==> forall x :: x in s'.sent[i].slice ==> x !in s.bad
    ensures NoPanic(steps) ==> (s'.sent[i].ok <==> forall x :: x in s'.sent[i].slice ==> x !in s.bad)
  {
    RunKeepsOutcomes(s, steps, s', NoPanic(steps));
    var m := s'.sent[i];
    assert Loads(m.slice, s.bad) <==> forall x :: x in m.slice ==> x !in s.bad by {
      if Loads(m.slice, s.bad) {
        forall x | x in m.slice ensures x !in s.bad {
          var j :| 0 <= j < |m.slice| && m.slice[j] == x;
        }
      }
    }
  }

  // ---- One worker: in order ----

  /** How far the single worker has sent. */
  function SentUpTo(s: State): nat
    requires |s.workers| == 1
  {
    if Holds(s.workers[0]) then s.workers[0].start else s.cursor
  }

  ghost predicate InOrder(s: State) {
    && |s.workers| == 1 && Joined(s.sent) <= s.indices
    && (s.alive ==> Joined(s.sent) == s.indices[..Clip(s.indices, SentUpTo(s))])
    && (Holds(s.workers[0]) ==>
          s.cursor == s.workers[0].start + s.batch && s.workers[0].slice == Slice(s.indices, s.batch, s.workers[0].start))
    && (s.alive && s.workers[0].pc == Done ==> s.cursor >= |s.indices|)
  }

  lemma JoinedNext(s: State, start: nat, m: Message)
    requires Joined(s.sent) == s.indices[..Clip(s.indices, start)] && m.slice == Slice(s.indices, s.batch, start)
    ensures Joined(s.sent + [m]) == s.indices[..Clip(s.indices, start + s.batch)]
  {
    SentOneMore(s.sent, m, 0);
    SliceExtends(s, start);
  }

  lemma SendKeepsInOrder(s: State, st: Step)
    requires InOrder(s) && Enabled(s, st) && st.Send? && s.alive
    ensures InOrder(Apply(s, st))
  {
    var w := s.workers[0];
    JoinedNext(s, w.start, Message(w.start, w.slice, w.ok, w.id));
  }

  lemma StepKeepsInOrder(s: State, st: Step)
    requires InOrder(s) && Enabled(s, st)
    ensures InOrder(Apply(s, st))
  {
    if st.Send? && s.alive {
      SendKeepsInOrder(s, st);
    } else if st.Claim? && s.cursor >= |s.indices| {
      assert Clip(s.indices, s.cursor + s.batch) == Clip(s.indices, s.cursor);
    }
  }

  lemma {:induction false} RunKeepsInOrder(s: State, steps: seq<Step>, s': State)
    requires InOrder(s) && Run(s, steps, s')
    ensures InOrder(s') && s'.indices == s.indices
    decreases |steps|
  {
    if steps != [] {
      StepKeepsInOrder(s, steps[0]);
      RunKeepsInOrder(Apply(s, steps[0]), steps[1..], s');
    }
  }

  /** With one worker the slices arrive as a prefix of the index list, and as all of it in the end if the
      receiver lives. */
  lemma OneWorkerKeepsOrder(s: State, steps: seq<Step>, s': State)
    requires Init(s) && |s.workers| == 1 && Run(s, steps, s')
    ensures Joined(s'.sent) <= s.indices
    ensures AllDone(s') && s'.alive ==> Joined(s'.sent) == s.indices
  {
    RunKeepsInOrder(s, steps, s');
    if AllDone(s') {
      assert s'.workers[0].pc == Done;
    }
  }

  // ---- Resuming ----

  /** The index list a checkpointed stream starts from. */
  function ResumedFrom(order: seq<nat>, offset: nat): seq<nat> {
    order[if offset <= |order| then offset else |order|..]
  }

  /** Resuming at an offset delivers exactly what the first `offset` samples left over; with one worker
      in the original order. An offset past the end delivers nothing. */
  lemma ResumeCoversTail(order: seq<nat>, offset: nat, s: State, steps: seq<Step>, s': State, x: nat)
    requires Init(s) && s.indices == ResumedFrom(order, offset) && |s.workers| > 0
    requires Run(s, steps, s') && AllDone(s') && s'.alive
    ensures offset <= |order| ==> Times(order[..offset], x) + Delivered(s'.sent, x) == Times(order, x)
    ensures offset <= |order| && |s.workers| == 1 ==> order[..offset] + Joined(s'.sent) == order
    ensures offset >= |order| ==> Delivered(s'.sent, x) == 0
  {
    EveryIndexOnce(s, steps, s', x);
    if |s.workers| == 1 {
      OneWorkerKeepsOrder(s, steps, s');
    }
    if offset <= |order| {
      assert order == order[..offset] + order[offset..];
      TimesConcat(order[..offset], order[offset..], x);
    }
  }

  // ---- Every run ends ----

  function Stage(w: Worker): nat {
    match w.pc
    case Top => 1
    case Claimed => 4
    case Decoded => 3
    case Numbered => 2
    case Done => 0
  }

  function Stages(ws: seq<Worker>, n: nat): nat
    requires n <= |ws|
  {
    if n == 0 then 0 else Stages(ws, n - 1) + Stage(ws[n - 1])
  }

  function Work(s: State): int {
    4 * (|s.indices| - Clip(s.indices, s.cursor)) + Stages(s.workers, |s.workers|) + if s.alive then 1 else 0
  }

  lemma {:induction false} StagesUpdate(ws: seq<Worker>, n: nat, k: nat, w: Worker)
    requires n <= |ws| && k < |ws|
    ensures Stages(ws[k := w], n) == Stages(ws, n) + if k < n then Stage(w) - Stage(ws[k]) else 0
    decreases n
  {
    if n > 0 {
      StagesUpdate(ws, n - 1, k, w);
    }
  }

  lemma StepDoesWork(s: State, st: Step)
    requires s.batch > 0 && Enabled(s, st)
    ensures 0 <= Work(Apply(s, st)) < Work(s)
  {
    if !st.DropReceiver? {
      StagesUpdate(s.workers, |s.workers|, st.w, WorkerAfter(s, st));
    }
  }

  lemma {:induction false} RunDoesWork(s: State, steps: seq<Step>, s': State)
    requires s.batch > 0 && Run(s, steps, s')
    ensures |steps| + Work(s') <= Work(s) && Work(s') >= 0
    decreases |steps|
  {
    if steps != [] {
      StepDoesWork(s, steps[0]);
      RunDoesWork(Apply(s, steps[0]), steps[1..], s');
    }
  }

  lemma {:induction false} StagesAtTop(ws: seq<Worker>, n: nat)
    requires n <= |ws| && forall w :: 0 <= w < n ==> ws[w].pc == Top
    ensures Stages(ws, n) == n
    decreases n
  {
    if n > 0 {
      StagesAtTop(ws, n - 1);
    }
  }

  /** Every run is finite and can only stop with all workers done: in any other state some worker can
      move. */
  lemma StreamEnds(s: State, steps: seq<Step>, s': State)
    requires Init(s) && Run(s, steps, s')
    ensures |steps| <= 4 * |s.indices| + |s.workers| + 1
    ensures AllDone(s') <==> forall st: Step :: Enabled(s', st) ==> st.DropReceiver?
  {
    RunDoesWork(s, steps, s');
    StagesAtTop(s.workers, |s.workers|);
    forall w: nat | w < |s'.workers| && s'.workers[w].pc != Done
      ensures exists st: Step :: Enabled(s', st) && !st.DropReceiver?
    {
      var pc := s'.workers[w].pc;
      var st := if pc == Top then Claim(w) else if pc == Claimed then Decode(w, false)
                else if pc == Decoded then TakeId(w) else Send(w);
      assert Enabled(s', st);
    }
  }
}
