/**
 The ring buffer, the producer's `publish_event` and one pass of a worker's loop as the program
 runs them: objects updated in place. Each method is specified by its effect on the value-level
 ring of the state machine, so a call made without interference is a run of that machine.
 */
module Engine {
  import opened Bits
  import opened Disruptor
  import opened Wrappers

  /** An atomic counter. */
  class Sequence {
    var value: int

    constructor (initial: int)
      ensures value == initial
    {
      value := initial;
    }

    method Get() returns (v: int)
      ensures v == value
    {
      v := value;
    }

    method Set(v: int)
      modifies this
      ensures value == v
    {
      value := v;
    }

    method Increment() returns (v: int)
      modifies this
      ensures v == value == old(value) + 1
    {
      value := value + 1;
      v := value;
    }
  }

  class RingBuffer {
    const slots: array<Event>
    const mask: nat
    const claim: Sequence
    const cursor: Sequence
    var gates: seq<Sequence>

    ghost predicate Valid()
      reads this
    {
      && IsPow2(slots.Length) && slots.Length > 0 && mask == slots.Length - 1
      && claim != cursor && claim !in gates && cursor !in gates
      && forall i, j :: 0 <= i < j < |gates| ==> gates[i] != gates[j]
    }

    ghost function Gates(n: nat): (gs: seq<int>)
      requires n <= |gates|
      reads this, gates
      ensures |gs| == n && forall i :: 0 <= i < n ==> gs[i] == gates[i].value
    {
      if n == 0 then [] else Gates(n - 1) + [gates[n - 1].value]
    }

    /** The ring as the state machine sees it. */
    ghost function Abs(): Ring
      reads this, slots, claim, cursor, gates
    {
      Ring(slots[..], claim.value, cursor.value, Gates(|gates|))
    }

    constructor (capacity: nat, fill: Event)
      requires PowerOfTwoTest(capacity)
      ensures Valid() && gates == [] && slots.Length == capacity && fresh(slots) && fresh(claim) && fresh(cursor)
      ensures Abs() == Ring(seq(capacity, _ => fill), -1, -1, [])
    {
      PowerOfTwoTestCorrect(capacity);
      var a := new Event[capacity](_ => fill);
      var c := new Sequence(INITIAL_VALUE);
      var d := new Sequence(INITIAL_VALUE);
      slots, mask, claim, cursor, gates := a, capacity - 1, c, d, [];
      new;
      assert slots[..] == seq(capacity, _ => fill);
    }

    /** Fails exactly when the capacity is not a power of two. A new ring has claimed and published
        nothing and has no gates, so its first sequence is 0. */
    static method New(capacity: nat, fill: Event) returns (r: Result<RingBuffer, string>)
      ensures r.Ok? <==> IsPow2(capacity)
      ensures r.Ok? ==> fresh(r.value) && r.value.Valid() && r.value.slots.Length == capacity && r.value.gates == []
      ensures r.Ok? ==> fresh(r.value.slots) && fresh(r.value.claim) && fresh(r.value.cursor)
      ensures r.Ok? ==> r.value.Abs() == Ring(seq(capacity, _ => fill), -1, -1, [])
    {
      PowerOfTwoTestCorrect(capacity);
      if !PowerOfTwoTest(capacity) {
        return Err("RingBuffer capacity must be a power of two");
      }
      var b := new RingBuffer(capacity, fill);
      r := Ok(b);
    }

    method AddGatingSequence() returns (g: Sequence)
      requires Valid()
      modifies this
      ensures Valid() && fresh(g) && gates == old(gates) + [g]
      ensures Abs() == old(Abs()).(gates := old(Abs()).gates + [-1])
    {
      g := new Sequence(INITIAL_VALUE);
      gates := gates + [g];
      assert Gates(|gates|) == old(Gates(|gates|)) + [INITIAL_VALUE];
    }

    /** The index is `sequence & mask`; it is the machine's slot. */
    method Index(q: nat) returns (i: nat)
      requires Valid()
      ensures i == SlotOf(q, slots.Length) && i < slots.Length
    {
      i := And(q, mask);
      ghost var k: nat :| slots.Length == Pow2(k);
      MaskIsMod(q, k);
    }

    method Get(q: nat) returns (e: Event)
      requires Valid()
      ensures e == Abs().slots[SlotOf(q, slots.Length)]
    {
      var i := Index(q);
      e := slots[i];
    }

    method Store(q: nat, e: Event)
      requires Valid()
      modifies slots
      ensures Valid() && Abs() == old(Abs()).(slots := old(Abs()).slots[SlotOf(q, slots.Length) := e])
    {
      var i := Index(q);
      slots[i] := e;
      assert Gates(|gates|) == old(Gates(|gates|));
    }

    method NextSequence() returns (q: int)
      requires Valid()
      modifies claim
      ensures Valid() && q == old(Abs()).claim + 1 && Abs() == old(Abs()).(claim := q)
    {
      q := claim.Increment();
      assert Gates(|gates|) == old(Gates(|gates|));
    }

    method Publish(q: int)
      requires Valid()
      modifies cursor
      ensures Valid() && Abs() == old(Abs()).(cursor := q)
    {
      cursor.Set(q);
      assert Gates(|gates|) == old(Gates(|gates|));
    }

    /** True exactly when the next claim would stay less than a lap ahead of every gate. */
    method HasAvailableCapacity() returns (ok: bool)
      requires Valid()
      ensures ok <==> forall i :: 0 <= i < |gates| ==> claim.value + 1 - gates[i].value < slots.Length
    {
      if gates == [] {
        return true;
      }
      var claimed := claim.Get();
      var next := claimed + 1;
      var minGate := gates[0].Get();
      var j := 1;
      while j < |gates|
        invariant 1 <= j <= |gates|
        invariant forall i :: 0 <= i < j ==> minGate <= gates[i].value
        invariant exists i :: 0 <= i < j && minGate == gates[i].value
      {
        var g := gates[j].Get();
        if g < minGate {
          minGate := g;
        }
        j := j + 1;
      }
      ok := next - minGate < slots.Length;
    }

    /** `Pipeline::publish_event`: refuses without effect when full, otherwise leaves the ring with
        the event in the next slot and the cursor on it. */
    method PublishEvent(e: Event) returns (r: Result<int, string>)
      requires Valid() && Abs().claim >= INITIAL_VALUE
      modifies slots, claim, cursor
      ensures Valid()
      ensures r.Ok? <==> forall i :: 0 <= i < |old(Abs()).gates| ==>
                           old(Abs()).claim + 1 - old(Abs()).gates[i] < slots.Length
      ensures r.Err? ==> Abs() == old(Abs())
      ensures r.Ok? ==> r.value == old(Abs()).claim + 1 && Abs() == PublishedRing(old(Abs()), e)
    {
      var room := HasAvailableCapacity();
      if !room {
        return Err("ring buffer full");
      }
      var q := NextSequence();
      Store(q, e);
      Publish(q);
      r := Ok(q);
    }
  }

  /** What a worker at `q` hands to its handlers when it runs up to cursor `c` alone. */
  function Batch(slots: seq<Event>, q: int, n: nat, c: int): seq<Handled>
    requires |slots| > 0 && n > 0
    decreases c - q
  {
    if q + n > c then [] else [Handled(q + n, slots[SlotOf(q + n, |slots|)])] + Batch(slots, q + n, n, c)
  }

  /** Where that leaves the worker. */
  function BatchLast(q: int, n: nat, c: int): int
    requires n > 0
    decreases c - q
  {
    if q + n > c then q else BatchLast(q + n, n, c)
  }

  /** The batch is every stride above `q` up to `c`, in order, and nothing else. */
  lemma {:induction false} BatchIsAllStrides(slots: seq<Event>, q: int, n: nat, c: int)
    requires |slots| > 0 && n > 0 && q <= c
    ensures BatchLast(q, n, c) == q + |Batch(slots, q, n, c)| * n
    ensures BatchLast(q, n, c) <= c < BatchLast(q, n, c) + n
    decreases c - q
  {
    if q + n <= c {
      BatchIsAllStrides(slots, q + n, n, c);
      MulDist(|Batch(slots, q + n, n, c)|, 1, n);
    }
  }

  lemma {:induction false} BatchAt(slots: seq<Event>, q: int, n: nat, c: int, i: nat)
    requires |slots| > 0 && n > 0 && i < |Batch(slots, q, n, c)|
    ensures var p := q + (i + 1) * n;
            p <= c && Batch(slots, q, n, c)[i] == Handled(p, slots[SlotOf(p, |slots|)])
    decreases i
  {
    MulDist(i, 1, n);
    if i > 0 {
      BatchAt(slots, q + n, n, c, i - 1);
    }
  }

  /** A batch drained without interference is a run of the machine in which only this worker moves. */
  lemma {:induction false} BatchIsRun(s: State, w: nat) returns (steps: seq<Step>, t: State)
    requires Shaped(s) && w < |s.workers| && s.workers[w].pc.Inner? && s.workers[w].seqNo <= s.workers[w].pc.c
    ensures Run(s, steps, t)
    ensures var k, n := s.workers[w], |s.workers|;
            t == s.(workers := s.workers[w := Worker(SetGate, BatchLast(k.seqNo, n, k.pc.c),
                                                     k.handled + Batch(s.ring.slots, k.seqNo, n, k.pc.c))])
    decreases s.workers[w].pc.c - s.workers[w].seqNo
  {
    var k, n := s.workers[w], |s.workers|;
    var s1 := Apply(s, Advance(w));
    if k.seqNo + n > k.pc.c {
      t := s1;
      assert k.handled + [] == k.handled;
      RunOne(s, Advance(w));
      steps := [Advance(w)];
    } else {
      var s2 := Apply(s1, EndHandle(w));
      var rest;
      rest, t := BatchIsRun(s2, w);
      var h := [Handled(k.seqNo + n, s.ring.slots[SlotOf(k.seqNo + n, |s.ring.slots|)])];
      var b := Batch(s.ring.slots, k.seqNo + n, n, k.pc.c);
      assert k.handled + h + b == k.handled + (h + b);
      assert t.workers == s.workers[w := t.workers[w]];
      RunCons(s1, EndHandle(w), rest, t);
      RunCons(s, Advance(w), [EndHandle(w)] + rest, t);
      steps := [Advance(w)] + ([EndHandle(w)] + rest);
    }
  }

  lemma Regroup(a: seq<Handled>, h: Handled, b: seq<Handled>)
    ensures a + ([h] + b) == a + [h] + b
  {}

  /** A worker: `PipelineRunner`. `handled` is what its handlers were given. */
  class PipelineRunner {
    const ring: RingBuffer
    const gate: Sequence
    const numShards: nat
    var consumerSeq: int
    var handled: seq<Handled>

    constructor (ring: RingBuffer, gate: Sequence, shardId: nat, numShards: nat)
      ensures this.ring == ring && this.gate == gate && this.numShards == numShards
      ensures consumerSeq == shardId - 1 && handled == []
    {
      this.ring, this.gate, this.numShards := ring, gate, numShards;
      consumerSeq, handled := shardId - 1, [];
    }

    /** The inner loop. `ends` are the end-of-batch flags given to the handlers: only the last call
        of a batch carries it. */
    method DrainTo(cursor: int) returns (ends: seq<bool>)
      requires ring.Valid() && numShards > 0 && INITIAL_VALUE <= consumerSeq <= cursor
      modifies this`consumerSeq, this`handled
      ensures handled == old(handled) + Batch(ring.slots[..], old(consumerSeq), numShards, cursor)
      ensures consumerSeq == BatchLast(old(consumerSeq), numShards, cursor)
      ensures |ends| == |Batch(ring.slots[..], old(consumerSeq), numShards, cursor)|
      ensures forall i :: 0 <= i < |ends| ==> (ends[i] <==> i == |ends| - 1)
    {
      ends := [];
      ghost var slots, n := ring.slots[..], numShards;
      ghost var all := old(handled) + Batch(slots, consumerSeq, n, cursor);
      while consumerSeq < cursor
        invariant INITIAL_VALUE <= consumerSeq <= cursor && ring.slots[..] == slots
        invariant handled + Batch(slots, consumerSeq, n, cursor) == all
        invariant |ends| + |Batch(slots, consumerSeq, n, cursor)| == |Batch(slots, old(consumerSeq), n, cursor)|
        invariant BatchLast(consumerSeq, n, cursor) == BatchLast(old(consumerSeq), n, cursor)
        invariant forall i :: 0 <= i < |ends| ==> (ends[i] <==> i == |ends| - 1 && consumerSeq + n > cursor)
      {
        consumerSeq := consumerSeq + numShards;
        if consumerSeq > cursor {
          consumerSeq := consumerSeq - numShards;
          break;
        }
        var endOfBatch := consumerSeq >= cursor - (numShards - 1);
        var event := ring.Get(consumerSeq);
        Regroup(handled, Handled(consumerSeq, event), Batch(slots, consumerSeq, n, cursor));
        handled := handled + [Handled(consumerSeq, event)];
        ends := ends + [endOfBatch];
      }
    }

    /** One iteration of the loop: drain the batch up to the loaded cursor and raise the gate, or,
        when there is nothing new, test the shutdown flag. */
    method Pass(shutdown: bool) returns (leave: bool)
      requires ring.Valid() && gate in ring.gates && numShards > 0 && consumerSeq >= INITIAL_VALUE
      modifies this`consumerSeq, this`handled, gate
      ensures leave <==> ring.cursor.value <= old(consumerSeq) && shutdown
      ensures ring.cursor.value <= old(consumerSeq) ==>
                consumerSeq == old(consumerSeq) && handled == old(handled) && gate.value == old(gate.value)
      ensures ring.cursor.value > old(consumerSeq) ==>
                && handled == old(handled) + Batch(ring.slots[..], old(consumerSeq), numShards, ring.cursor.value)
                && gate.value == consumerSeq == BatchLast(old(consumerSeq), numShards, ring.cursor.value)
    {
      leave := false;
      var cursor := ring.cursor.Get();
      if cursor > consumerSeq {
        var _ := DrainTo(cursor);
        gate.Set(consumerSeq);
      } else if shutdown {
        leave := true;
      }
    }
  }
}
