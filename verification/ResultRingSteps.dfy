/**
 The result ring one memory access at a time: writer tasks store an id and then the status, the one
 reader loads the status, then the id, then clears the status, in any interleaving.
 */
module ResultRingSteps {
  import opened Bits
  import opened Wrappers
  import opened ResultRing

  /** Where the reader is inside `try_remove`. */
  datatype Reader = Idle | Loaded(q: nat) | Read(q: nat, id: nat)

  /** `writing` are the inserts whose id is stored and whose status is not; `results` is the map the ring
      stands in for: a result enters it with its status store and leaves it with the clearing store. */
  datatype State = State(ring: Slots, inFlight: set<nat>, results: map<nat, nat>, writing: map<nat, nat>, reader: Reader)

  datatype Access =
    | Await(q: nat)
    | StoreId(q: nat, id: nat) | StoreStatus(q: nat)
    | LoadStatus(q: nat) | ReadId | ClearStatus
    | Forget(q: nat)

  predicate Enabled(s: State, a: Access) {
    match a
    case Await(q) => q !in s.inFlight && s.reader.Idle?
    case StoreId(q, _) => q in s.inFlight && q !in s.results && q !in s.writing
    case StoreStatus(q) => q in s.writing
    case LoadStatus(q) => q in s.inFlight && s.reader.Idle?
    case ReadId => s.reader.Loaded?
    case ClearStatus => s.reader.Read?
    case Forget(q) => q in s.inFlight && q !in s.results && q !in s.writing && s.reader.Idle?
  }

  function Apply(s: State, a: Access): State
    requires WellFormed(s.ring) && Enabled(s, a)
  {
    var cap := |s.ring.status|;
    match a
    case Await(q) => s.(inFlight := s.inFlight + {q})
    case StoreId(q, id) =>
      s.(ring := s.ring.(ids := s.ring.ids[SlotOf(q, cap) := id]), writing := s.writing[q := id])
    case StoreStatus(q) =>
      s.(ring := s.ring.(status := s.ring.status[SlotOf(q, cap) := COMMITTED]),
         writing := s.writing - {q}, results := s.results[q := s.writing[q]])
    case LoadStatus(q) => if s.ring.status[SlotOf(q, cap)] == COMMITTED then s.(reader := Loaded(q)) else s
    case ReadId => s.(reader := Read(s.reader.q, s.ring.ids[SlotOf(s.reader.q, cap)]))
    case ClearStatus =>
      var q := s.reader.q;
      State(Removed(s.ring, q), s.inFlight - {q}, s.results - {q}, s.writing, Idle)
    case Forget(q) => s.(inFlight := s.inFlight - {q})
  }

  /** A `try_remove` that returns nothing does so at its load, one that returns an id at its clearing
      store; either way it must be what the map holds at that moment. */
  predicate AnswersAsMap(s: State, a: Access)
    requires WellFormed(s.ring) && Enabled(s, a)
  {
    && (a.LoadStatus? && Apply(s, a).reader.Idle? ==> MapAnswer(s.results, a.q) == None)
    && (a.ClearStatus? ==> MapAnswer(s.results, s.reader.q) == Some(s.reader.id))
  }

  /** No two sequences in flight ever share a slot. */
  ghost predicate AliasFreeAccesses(s: State, accesses: seq<Access>)
    requires WellFormed(s.ring)
    decreases |accesses|
  {
    && AliasFree(s.inFlight, |s.ring.status|)
    && (accesses != [] ==> Enabled(s, accesses[0]) && AliasFreeAccesses(Apply(s, accesses[0]), accesses[1..]))
  }

  ghost predicate AllAnswerAsMap(s: State, accesses: seq<Access>)
    requires WellFormed(s.ring)
    decreases |accesses|
  {
    accesses != [] ==>
      && Enabled(s, accesses[0]) && AnswersAsMap(s, accesses[0])
      && AllAnswerAsMap(Apply(s, accesses[0]), accesses[1..])
  }

  ghost predicate Inv(s: State) {
    var cap := |s.ring.status|;
    && WellFormed(s.ring)
    && s.results.Keys <= s.inFlight && s.writing.Keys <= s.inFlight && s.results.Keys !! s.writing.Keys
    && (forall q :: q in s.inFlight ==> (s.ring.status[SlotOf(q, cap)] == COMMITTED <==> q in s.results))
    && (forall q :: q in s.results ==> s.ring.ids[SlotOf(q, cap)] == s.results[q])
    && (forall q :: q in s.writing ==> s.ring.ids[SlotOf(q, cap)] == s.writing[q])
    && (forall i :: 0 <= i < cap && s.ring.status[i] == COMMITTED ==> exists q :: q in s.results && SlotOf(q, cap) == i)
    && (!s.reader.Idle? ==> s.reader.q in s.results)
    && (s.reader.Read? ==> s.results[s.reader.q] == s.reader.id)
  }

  lemma AwaitKeepsInv(s: State, q: nat)
    requires Inv(s) && Enabled(s, Await(q)) && AliasFree(s.inFlight + {q}, |s.ring.status|)
    ensures Inv(Apply(s, Await(q)))
  {}

  lemma StoreIdKeepsInv(s: State, q: nat, id: nat)
    requires Inv(s) && Enabled(s, StoreId(q, id)) && AliasFree(s.inFlight, |s.ring.status|)
    ensures Inv(Apply(s, StoreId(q, id)))
  {}

  lemma StoreStatusKeepsInv(s: State, q: nat)
    requires Inv(s) && Enabled(s, StoreStatus(q)) && AliasFree(s.inFlight, |s.ring.status|)
    ensures Inv(Apply(s, StoreStatus(q)))
  {
    var s', cap := Apply(s, StoreStatus(q)), |s.ring.status|;
    forall i | 0 <= i < cap && s'.ring.status[i] == COMMITTED
      ensures exists p :: p in s'.results && SlotOf(p, cap) == i
    {
      if i == SlotOf(q, cap) {
        assert q in s'.results;
      } else {
        var p :| p in s.results && SlotOf(p, cap) == i;
        assert p in s'.results;
      }
    }
  }

  lemma ClearStatusKeepsInv(s: State)
    requires Inv(s) && Enabled(s, ClearStatus) && AliasFree(s.inFlight, |s.ring.status|)
    ensures Inv(Apply(s, ClearStatus))
  {
    var s', cap := Apply(s, ClearStatus), |s.ring.status|;
    forall i | 0 <= i < cap && s'.ring.status[i] == COMMITTED
      ensures exists p :: p in s'.results && SlotOf(p, cap) == i
    {
      var p :| p in s.results && SlotOf(p, cap) == i;
      assert p in s'.results;
    }
  }

  lemma StepKeepsInv(s: State, a: Access)
    requires Inv(s) && Enabled(s, a) && AliasFree(s.inFlight, |s.ring.status|)
    requires AliasFree(Apply(s, a).inFlight, |s.ring.status|)
    ensures Inv(Apply(s, a)) && AnswersAsMap(s, a)
  {
    match a
    case Await(q) => AwaitKeepsInv(s, q);
    case StoreId(q, id) => StoreIdKeepsInv(s, q, id);
    case StoreStatus(q) => StoreStatusKeepsInv(s, q);
    case ClearStatus => ClearStatusKeepsInv(s);
    case _ =>
  }

  /** While no two sequences in flight share a slot, the single accesses of inserts and removes can
      interleave in any way: every `try_remove` answers as the map does. */
  lemma {:induction false} InterleavedRingIsMap(s: State, accesses: seq<Access>)
    requires Inv(s) && AliasFreeAccesses(s, accesses)
    ensures AllAnswerAsMap(s, accesses)
    decreases |accesses|
  {
    if accesses != [] {
      StepKeepsInv(s, accesses[0]);
      InterleavedRingIsMap(Apply(s, accesses[0]), accesses[1..]);
    }
  }

  lemma FreshInv(r: Slots)
    requires WellFormed(r) && AllPending(r)
    ensures Inv(State(r, {}, map[], map[], Idle))
  {}

  /** In particular from an empty ring, for a client whose sequences in flight stay within a window of
      `cap` consecutive numbers. */
  lemma WindowedClientSeesMap(r: Slots, accesses: seq<Access>)
    requires WellFormed(r) && AllPending(r) && Windowed(State(r, {}, map[], map[], Idle), accesses)
    ensures AllAnswerAsMap(State(r, {}, map[], map[], Idle), accesses)
  {
    FreshInv(r);
    WindowedIsAliasFree(State(r, {}, map[], map[], Idle), accesses);
    InterleavedRingIsMap(State(r, {}, map[], map[], Idle), accesses);
  }

  ghost predicate InWindow(s: set<nat>, cap: nat) {
    forall a, b :: a in s && b in s ==> a < b + cap
  }

  ghost predicate Windowed(s: State, accesses: seq<Access>)
    requires WellFormed(s.ring)
    decreases |accesses|
  {
    && InWindow(s.inFlight, |s.ring.status|)
    && (accesses != [] ==> Enabled(s, accesses[0]) && Windowed(Apply(s, accesses[0]), accesses[1..]))
  }

  lemma {:induction false} WindowedIsAliasFree(s: State, accesses: seq<Access>)
    requires WellFormed(s.ring) && Windowed(s, accesses)
    ensures AliasFreeAccesses(s, accesses)
    decreases |accesses|
  {
    var cap := |s.ring.status|;
    forall a, b | a in s.inFlight && b in s.inFlight && SlotOf(a, cap) == SlotOf(b, cap) ensures a == b {
      ModInjective(a, b, cap);
    }
    if accesses != [] {
      WindowedIsAliasFree(Apply(s, accesses[0]), accesses[1..]);
    }
  }
}
