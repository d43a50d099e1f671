/**
 Any number of recording threads and flushers over the same counters, one atomic step at a time.
 */
module MeteringRuns {
  import opened Metering

  /** Where a flusher stands: scanning the shards (`next` is the next one to list, `todo` the listed
      tenants of the last one still to be swapped), writing, or putting rows back. */
  datatype Phase = Idle | Scanning(next: nat, todo: set<Tenant>) | Writing | Reinjecting

  /** `held` is what the flusher has taken out of the counters and not disposed of. */
  datatype Flusher = Flusher(phase: Phase, held: Counts)

  /** `home` assigns tenants to shards; the program uses `ShardOf`, nothing below depends on which. */
  datatype State = State(home: Tenant -> ShardIndex, shards: seq<Counts>, flushers: seq<Flusher>, persisted: Counts)

  datatype Step =
    | Ensure(tenant: Tenant)             // a counter is allocated under the shard's write lock
    | Add(tenant: Tenant, delta: int)    // a recording thread adds to an allocated counter
    | Begin(f: nat)
    | List(f: nat)                       // one shard's tenants are listed under its read lock
    | Swap(f: nat, tenant: Tenant)       // one counter is swapped with zero
    | EndScan(f: nat)
    | WriteOk(f: nat)
    | WriteFail(f: nat, kept: set<Tenant>)  // the write fails, the rows of `kept` are stored anyway
    | Reinsert(f: nat, tenant: Tenant)
    | EndReinject(f: nat)

  ghost predicate Init(s: State) {
    && |s.shards| == SHARD_COUNT && (forall i :: 0 <= i < SHARD_COUNT ==> s.shards[i] == map[])
    && (forall i :: 0 <= i < |s.flushers| ==> s.flushers[i] == Flusher(Idle, map[]))
    && s.persisted == map[]
  }

  predicate Enabled(s: State, st: Step)
    requires |s.shards| == SHARD_COUNT
  {
    if st.Ensure? then true
    else if st.Add? then st.tenant in s.shards[s.home(st.tenant)] && st.delta > 0
    else
      && st.f < |s.flushers|
      && var f := s.flushers[st.f];
         match st
         case Begin(_) => f.phase.Idle?
         case List(_) => f.phase.Scanning? && f.phase.todo == {} && f.phase.next < SHARD_COUNT
         case Swap(_, t) => f.phase.Scanning? && t in f.phase.todo && 0 < f.phase.next <= SHARD_COUNT
         case EndScan(_) => f.phase.Scanning? && f.phase.todo == {} && f.phase.next == SHARD_COUNT
         case WriteOk(_) => f.phase.Writing?
         case WriteFail(_, _) => f.phase.Writing?
         case Reinsert(_, t) => f.phase.Reinjecting? && t in f.held
         case EndReinject(_) => f.phase.Reinjecting? && f.held == map[]
  }

  function Bumped(shards: seq<Counts>, i: nat, t: Tenant, delta: int): seq<Counts>
    requires i < |shards|
  {
    shards[i := Bump(shards[i], t, delta)]
  }

  function Apply(s: State, st: Step): State
    requires |s.shards| == SHARD_COUNT && Enabled(s, st)
  {
    if st.Ensure? then s.(shards := Bumped(s.shards, s.home(st.tenant), st.tenant, 0))
    else if st.Add? then s.(shards := Bumped(s.shards, s.home(st.tenant), st.tenant, st.delta))
    else State(s.home, ShardsAfter(s, st), s.flushers[st.f := FlusherAfter(s, st)], StoreAfter(s, st))
  }

  function FlusherAfter(s: State, st: Step): Flusher
    requires |s.shards| == SHARD_COUNT && Enabled(s, st) && !st.Ensure? && !st.Add?
  {
    var f := s.flushers[st.f];
    match st
    case Begin(_) => Flusher(Scanning(0, {}), map[])
    case List(_) => f.(phase := Scanning(f.phase.next + 1, s.shards[f.phase.next].Keys))
    case Swap(_, t) =>
      var v := Get(s.shards[f.phase.next - 1], t);
      Flusher(Scanning(f.phase.next, f.phase.todo - {t}), if v != 0 then f.held[t := v] else f.held)
    case EndScan(_) => f.(phase := if f.held == map[] then Idle else Writing)
    case WriteOk(_) => Flusher(Idle, map[])
    case WriteFail(_, _) => f.(phase := Reinjecting)
    case Reinsert(_, t) => f.(held := f.held - {t})
    case EndReinject(_) => Flusher(Idle, map[])
  }

  function ShardsAfter(s: State, st: Step): seq<Counts>
    requires |s.shards| == SHARD_COUNT && Enabled(s, st) && !st.Ensure? && !st.Add?
  {
    var f := s.flushers[st.f];
    match st
    case Swap(_, t) => var i := f.phase.next - 1; s.shards[i := s.shards[i][t := 0]]
    case Reinsert(_, t) => Bumped(s.shards, s.home(t), t, f.held[t])
    case _ => s.shards
  }

  function StoreAfter(s: State, st: Step): Counts
    requires |s.shards| == SHARD_COUNT && Enabled(s, st) && !st.Ensure? && !st.Add?
  {
    var rows := s.flushers[st.f].held;
    match st
    case WriteOk(_) => Merged(s.persisted, rows, rows.Keys)
    case WriteFail(_, kept) => Merged(s.persisted, rows, kept)
    case _ => s.persisted
  }

  ghost predicate Run(s: State, steps: seq<Step>, s': State)
    decreases |steps|
  {
    if steps == [] then s' == s
    else |s.shards| == SHARD_COUNT && Enabled(s, steps[0]) && Run(Apply(s, steps[0]), steps[1..], s')
  }

  // ---- The invariant ----

  ghost predicate FlusherOk(home: Tenant -> ShardIndex, shards: seq<Counts>, f: Flusher)
    requires |shards| == SHARD_COUNT
  {
    && (forall t :: t in f.held ==> f.held[t] > 0)
    && (f.phase.Idle? ==> f.held == map[])
    && (f.phase.Scanning? ==>
          && f.phase.next <= SHARD_COUNT
          && (f.phase.todo != {} ==> f.phase.next > 0 && f.phase.todo <= shards[f.phase.next - 1].Keys)
          && forall t :: t in f.held ==> home(t) < f.phase.next && t !in f.phase.todo)
  }

  ghost predicate Inv(s: State) {
    && Homed(s.home, s.shards)
    && (forall i, t :: 0 <= i < SHARD_COUNT && t in s.shards[i] ==> s.shards[i][t] >= 0)
    && forall i :: 0 <= i < |s.flushers| ==> FlusherOk(s.home, s.shards, s.flushers[i])
  }

  /** Counters are never freed, so what one flusher knows survives the steps of the others. */
  lemma OthersStayOk(home: Tenant -> ShardIndex, shards: seq<Counts>, shards': seq<Counts>, f: Flusher)
    requires |shards| == |shards'| == SHARD_COUNT && FlusherOk(home, shards, f)
    requires forall i :: 0 <= i < SHARD_COUNT ==> shards[i].Keys <= shards'[i].Keys
    ensures FlusherOk(home, shards', f)
  {
  }

  lemma ShardStepInv(s: State, st: Step)
    requires Inv(s) && Enabled(s, st)
    ensures var shards' := Apply(s, st).shards;
            && Homed(s.home, shards')
            && (forall i, t :: 0 <= i < SHARD_COUNT && t in shards'[i] ==> shards'[i][t] >= 0)
            && forall i :: 0 <= i < SHARD_COUNT ==> s.shards[i].Keys <= shards'[i].Keys
  {
    if st.Reinsert? {
      assert FlusherOk(s.home, s.shards, s.flushers[st.f]);
    } else if st.Swap? {
      assert FlusherOk(s.home, s.shards, s.flushers[st.f]);
    }
  }

  lemma MovedFlusherOk(s: State, st: Step)
    requires Inv(s) && Enabled(s, st) && !st.Ensure? && !st.Add?
    ensures FlusherOk(s.home, s.shards, FlusherAfter(s, st))
  {
    assert FlusherOk(s.home, s.shards, s.flushers[st.f]);
  }

  lemma StepKeepsInv(s: State, st: Step)
    requires Inv(s) && Enabled(s, st)
    ensures Inv(Apply(s, st))
  {
    var s' := Apply(s, st);
    ShardStepInv(s, st);
    forall i | 0 <= i < |s'.flushers| ensures FlusherOk(s'.home, s'.shards, s'.flushers[i]) {
      if !st.Ensure? && !st.Add? && st.f == i {
        MovedFlusherOk(s, st);
      } else {
        assert s'.flushers[i] == s.flushers[i];
      }
      OthersStayOk(s.home, s.shards, s'.shards, s'.flushers[i]);
    }
  }

  // ---- Conservation ----

  function HeldBy(fs: seq<Flusher>, t: Tenant, n: nat): int
    requires n <= |fs|
  {
    if n == 0 then 0 else HeldBy(fs, t, n - 1) + Get(fs[n - 1].held, t)
  }

  lemma {:induction false} HeldByUpdate(fs: seq<Flusher>, t: Tenant, n: nat, f: nat, to: Flusher)
    requires n <= |fs| && f < |fs|
    ensures HeldBy(fs[f := to], t, n) ==
              HeldBy(fs, t, n) + if f < n then Get(to.held, t) - Get(fs[f].held, t) else 0
    decreases n
  {
    if n > 0 {
      HeldByUpdate(fs, t, n - 1, f, to);
    }
  }

  /** Everything accounted for: stored, taken but not yet stored, still counted. */
  function Balance(s: State, t: Tenant): int
    requires |s.shards| == SHARD_COUNT
  {
    Get(s.persisted, t) + HeldBy(s.flushers, t, |s.flushers|) + Counted(s.home, s.shards, t)
  }

  /** What a step adds to the balance: a recorded delta, or a failed write that stored rows which will
      be put back. */
  function RecordedBy(st: Step, t: Tenant): int {
    if st.Add? && st.tenant == t then st.delta else 0
  }

  function DuplicatedBy(s: State, st: Step, t: Tenant): int
    requires |s.shards| == SHARD_COUNT && Enabled(s, st)
  {
    if st.WriteFail? && t in st.kept then Get(s.flushers[st.f].held, t) else 0
  }

  /** Taking a count out of its shard and putting one back. */
  lemma SwapMoves(home: Tenant -> ShardIndex, shards: seq<Counts>, i: nat, u: Tenant, t: Tenant)
    requires Homed(home, shards) && i < SHARD_COUNT && u in shards[i]
    ensures Counted(home, shards[i := shards[i][u := 0]], t) == if t == u then 0 else Counted(home, shards, t)
    ensures Get(shards[i], u) == Counted(home, shards, u)
  {}

  lemma BumpMoves(home: Tenant -> ShardIndex, shards: seq<Counts>, u: Tenant, delta: int, t: Tenant)
    requires |shards| == SHARD_COUNT
    ensures Counted(home, Bumped(shards, home(u), u, delta), t) == Counted(home, shards, t) + if t == u then delta else 0
  {}

  /** A flusher's step only moves counts between the store, its hands and the counters, except for what
      a failed write stored. */
  lemma FlusherBalance(s: State, st: Step, t: Tenant)
    requires Homed(s.home, s.shards) && Enabled(s, st) && !st.Ensure? && !st.Add? && FlusherOk(s.home, s.shards, s.flushers[st.f])
    ensures |ShardsAfter(s, st)| == SHARD_COUNT
    ensures Get(StoreAfter(s, st), t) + Get(FlusherAfter(s, st).held, t) + Counted(s.home, ShardsAfter(s, st), t)
            == Get(s.persisted, t) + Get(s.flushers[st.f].held, t) + Counted(s.home, s.shards, t) + DuplicatedBy(s, st, t)
  {
    var f := s.flushers[st.f];
    match st
    case Swap(_, u) => SwapMoves(s.home, s.shards, f.phase.next - 1, u, t);
    case Reinsert(_, u) => BumpMoves(s.home, s.shards, u, f.held[u], t);
    case _ =>
  }

  lemma StepBalance(s: State, st: Step, t: Tenant)
    requires Inv(s) && Enabled(s, st)
    ensures |Apply(s, st).shards| == SHARD_COUNT
    ensures Balance(Apply(s, st), t) == Balance(s, t) + RecordedBy(st, t) + DuplicatedBy(s, st, t)
  {
    if !st.Ensure? && !st.Add? {
      assert FlusherOk(s.home, s.shards, s.flushers[st.f]);
      FlusherBalance(s, st, t);
      HeldByUpdate(s.flushers, t, |s.flushers|, st.f, FlusherAfter(s, st));
    }
  }

  function Recorded(steps: seq<Step>, t: Tenant): int {
    if steps == [] then 0 else RecordedBy(steps[0], t) + Recorded(steps[1..], t)
  }

  ghost function Duplicated(s: State, steps: seq<Step>, s': State, t: Tenant): int
    requires Run(s, steps, s')
    decreases |steps|
  {
    if steps == [] then 0
    else DuplicatedBy(s, steps[0], t) + Duplicated(Apply(s, steps[0]), steps[1..], s', t)
  }

  lemma {:induction false} RunBalance(s: State, steps: seq<Step>, s': State, t: Tenant)
    requires Inv(s) && Run(s, steps, s')
    ensures Inv(s')
    ensures Balance(s', t) == Balance(s, t) + Recorded(steps, t) + Duplicated(s, steps, s', t)
    decreases |steps|
  {
    if steps != [] {
      StepKeepsInv(s, steps[0]);
      StepBalance(s, steps[0], t);
      RunBalance(Apply(s, steps[0]), steps[1..], s', t);
    }
  }

  lemma {:induction false} IdleHoldNothing(fs: seq<Flusher>, t: Tenant, n: nat)
    requires n <= |fs| && forall i :: 0 <= i < n ==> fs[i].held == map[]
    ensures HeldBy(fs, t, n) == 0
    decreases n
  {
    if n > 0 {
      IdleHoldNothing(fs, t, n - 1);
    }
  }

  // ---- The theorems ----

  /** In every run, what was recorded for a tenant plus what failed writes stored anyway is exactly what
      is stored, taken out, or still counted. */
  lemma UsageConserved(s: State, steps: seq<Step>, s': State, t: Tenant)
    requires Init(s) && Run(s, steps, s')
    ensures Inv(s') && Balance(s', t) == Recorded(steps, t) + Duplicated(s, steps, s', t)
  {
    IdleHoldNothing(s.flushers, t, |s.flushers|);
    RunBalance(s, steps, s', t);
  }

  /** Some failed write of the run stored a row of the tenant. */
  ghost predicate SomeFailureStored(s: State, steps: seq<Step>, s': State, t: Tenant)
    requires Run(s, steps, s')
    decreases |steps|
  {
    && steps != []
    && ((steps[0].WriteFail? && t in steps[0].kept && t in s.flushers[steps[0].f].held)
        || SomeFailureStored(Apply(s, steps[0]), steps[1..], s', t))
  }

  lemma {:induction false} DuplicatedIff(s: State, steps: seq<Step>, s': State, t: Tenant)
    requires Inv(s) && Run(s, steps, s')
    ensures Duplicated(s, steps, s', t) >= 0
    ensures Duplicated(s, steps, s', t) == 0 <==> !SomeFailureStored(s, steps, s', t)
    decreases |steps|
  {
    if steps != [] {
      StepKeepsInv(s, steps[0]);
      DuplicatedIff(Apply(s, steps[0]), steps[1..], s', t);
      if steps[0].WriteFail? {
        assert FlusherOk(s.home, s.shards, s.flushers[steps[0].f]);
      }
    }
  }

  /** Nothing recorded is ever lost; usage is counted twice exactly when a failed write stored it. */
  lemma NothingLost(s: State, steps: seq<Step>, s': State, t: Tenant)
    requires Init(s) && Run(s, steps, s')
    ensures |s'.shards| == SHARD_COUNT
    ensures Recorded(steps, t) <= Balance(s', t)
    ensures Recorded(steps, t) == Balance(s', t) <==> !SomeFailureStored(s, steps, s', t)
  {
    UsageConserved(s, steps, s', t);
    DuplicatedIff(s, steps, s', t);
  }

  /** In every reachable state each tenant is counted in exactly one shard. */
  lemma OneShardPerTenant(s: State, steps: seq<Step>, s': State, t: Tenant, i: nat, j: nat)
    requires Init(s) && Run(s, steps, s')
    requires i < |s'.shards| && j < |s'.shards| && t in s'.shards[i] && t in s'.shards[j]
    ensures i == j == s'.home(t)
  {
    UsageConserved(s, steps, s', t);
  }

  // ---- One counter map ----

  /** The recorder without shards: a delta is added, or a whole count is taken. */
  datatype MapStep = Stutter | AddTo(tenant: Tenant, delta: int) | TakeAll(tenant: Tenant)

  function MapStepOf(st: Step, s: State): MapStep
    requires |s.shards| == SHARD_COUNT && Enabled(s, st)
  {
    match st
    case Add(t, delta) => AddTo(t, delta)
    case Reinsert(f, t) => AddTo(t, s.flushers[f].held[t])
    case Swap(_, t) => TakeAll(t)
    case _ => Stutter
  }

  function AfterMapStep(count: int, m: MapStep, t: Tenant): int {
    match m
    case Stutter => count
    case AddTo(u, delta) => if u == t then count + delta else count
    case TakeAll(u) => if u == t then 0 else count
  }

  /** Every step of the sharded recorder is a step of one counter map, and the flusher that takes a
      count gets all of it. */
  lemma RefinesOneMap(s: State, st: Step, t: Tenant)
    requires Inv(s) && Enabled(s, st)
    ensures |Apply(s, st).shards| == SHARD_COUNT
    ensures Counted(s.home, Apply(s, st).shards, t) == AfterMapStep(Counted(s.home, s.shards, t), MapStepOf(st, s), t)
    ensures st.Swap? && st.tenant == t ==>
              Get(Apply(s, st).flushers[st.f].held, t) == Counted(s.home, s.shards, t)
  {
    match st
    case Ensure(u) => BumpMoves(s.home, s.shards, u, 0, t);
    case Add(u, delta) => BumpMoves(s.home, s.shards, u, delta, t);
    case Swap(f, u) =>
      assert FlusherOk(s.home, s.shards, s.flushers[f]);
      SwapMoves(s.home, s.shards, s.flushers[f].phase.next - 1, u, t);
    case Reinsert(f, u) => BumpMoves(s.home, s.shards, u, s.flushers[f].held[u], t);
    case _ =>
  }

  // ---- A flush that is not disturbed ----

  /** Steps of flusher `f` alone, with no failing write. */
  predicate GoodSteps(steps: seq<Step>, f: nat) {
    forall i :: 0 <= i < |steps| ==> !steps[i].Ensure? && !steps[i].Add? && !steps[i].WriteFail? && steps[i].f == f
  }

  /** Everything the scan has passed is zero. */
  ghost predicate Scanned(s: State, f: nat) {
    && Inv(s) && f < |s.flushers| && s.flushers[f].phase.Scanning?
    && forall t :: s.home(t) < s.flushers[f].phase.next && t !in s.flushers[f].phase.todo ==> Counted(s.home, s.shards, t) == 0
  }

  lemma SwapScans(s: State, f: nat, u: Tenant)
    requires Scanned(s, f) && u in s.flushers[f].phase.todo
    ensures Enabled(s, Swap(f, u)) && Scanned(Apply(s, Swap(f, u)), f)
  {
    var w := s.flushers[f].phase;
    assert FlusherOk(s.home, s.shards, s.flushers[f]);
    StepKeepsInv(s, Swap(f, u));
    forall t | s.home(t) < w.next && t !in w.todo - {u} ensures Counted(s.home, Apply(s, Swap(f, u)).shards, t) == 0 {
      SwapMoves(s.home, s.shards, w.next - 1, u, t);
    }
  }

  lemma ListScans(s: State, f: nat)
    requires Scanned(s, f) && s.flushers[f].phase.todo == {} && s.flushers[f].phase.next < SHARD_COUNT
    ensures Enabled(s, List(f)) && Scanned(Apply(s, List(f)), f)
  {
    StepKeepsInv(s, List(f));
  }

  lemma RunFirst(s: State, st: Step, rest: seq<Step>, t: State)
    requires |s.shards| == SHARD_COUNT && Enabled(s, st) && Run(Apply(s, st), rest, t)
    ensures Run(s, [st] + rest, t)
  {
    assert ([st] + rest)[1..] == rest;
  }

  /** Writing what was taken, or nothing when nothing was. */
  lemma FinishFlush(s: State, f: nat) returns (steps: seq<Step>, t: State)
    requires Scanned(s, f) && s.flushers[f].phase.todo == {} && s.flushers[f].phase.next == SHARD_COUNT
    ensures Run(s, steps, t) && GoodSteps(steps, f) && t.shards == s.shards && t.home == s.home && t.flushers == s.flushers[f := Flusher(Idle, map[])]
  {
    var s1 := Apply(s, EndScan(f));
    if s.flushers[f].held == map[] {
      t := s1;
      assert Run(t, [], t);
      RunFirst(s, EndScan(f), [], t);
      steps := [EndScan(f)] + [];
    } else {
      t := Apply(s1, WriteOk(f));
      assert Run(t, [], t);
      RunFirst(s1, WriteOk(f), [], t);
      RunFirst(s, EndScan(f), [WriteOk(f)] + [], t);
      steps := [EndScan(f)] + ([WriteOk(f)] + []);
    }
  }

  /** The next step of a scan that is not over, and that it leads on. */
  lemma NextScan(s: State, f: nat) returns (st: Step)
    requires Scanned(s, f) && !(s.flushers[f].phase.todo == {} && s.flushers[f].phase.next == SHARD_COUNT)
    ensures !st.Ensure? && !st.Add? && !st.WriteFail? && st.f == f && Enabled(s, st) && Scanned(Apply(s, st), f)
    ensures var w, w' := s.flushers[f].phase, Apply(s, st).flushers[f].phase;
            w'.next > w.next || (w'.next == w.next && |w'.todo| < |w.todo|)
    ensures Apply(s, st).flushers == s.flushers[f := Apply(s, st).flushers[f]]
  {
    var w := s.flushers[f].phase;
    assert FlusherOk(s.home, s.shards, s.flushers[f]);
    if w.todo == {} {
      st := List(f);
      ListScans(s, f);
    } else {
      var u :| u in w.todo;
      st := Swap(f, u);
      SwapScans(s, f, u);
    }
  }

  lemma {:induction false} FinishScan(s: State, f: nat) returns (steps: seq<Step>, t: State)
    requires Scanned(s, f)
    ensures Run(s, steps, t) && GoodSteps(steps, f)
    ensures t.home == s.home && |t.shards| == SHARD_COUNT && (forall u :: Counted(t.home, t.shards, u) == 0)
    ensures t.flushers == s.flushers[f := Flusher(Idle, map[])]
    decreases SHARD_COUNT - s.flushers[f].phase.next, |s.flushers[f].phase.todo|
  {
    var w := s.flushers[f].phase;
    assert FlusherOk(s.home, s.shards, s.flushers[f]);
    if w.todo == {} && w.next == SHARD_COUNT {
      steps, t := FinishFlush(s, f);
    } else {
      var st := NextScan(s, f);
      var rest;
      rest, t := FinishScan(Apply(s, st), f);
      RunFirst(s, st, rest, t);
      steps := [st] + rest;
    }
  }

  lemma {:induction false} GoodStepsOnlyMove(s: State, steps: seq<Step>, t: State, f: nat, u: Tenant)
    requires Run(s, steps, t) && GoodSteps(steps, f)
    ensures Recorded(steps, u) == 0 && Duplicated(s, steps, t, u) == 0
    decreases |steps|
  {
    if steps != [] {
      assert !steps[0].Add? && !steps[0].WriteFail?;
      GoodStepsOnlyMove(Apply(s, steps[0]), steps[1..], t, f, u);
    }
  }

  /** From every state of every run, a flush that starts there and is not disturbed, with a good write,
      moves every count into the store: each tenant's stored total grows by exactly what was counted. */
  lemma FlushStoresEverything(s0: State, before: seq<Step>, s: State, f: nat) returns (steps: seq<Step>, t: State)
    requires Init(s0) && Run(s0, before, s) && f < |s.flushers| && s.flushers[f].phase.Idle?
    ensures Run(s, steps, t) && GoodSteps(steps, f) && |s.shards| == |t.shards| == SHARD_COUNT
    ensures forall u :: Get(t.persisted, u) == Get(s.persisted, u) + Counted(s.home, s.shards, u) && Counted(t.home, t.shards, u) == 0
    ensures t.flushers == s.flushers
  {
    UsageConserved(s0, before, s, []);
    assert FlusherOk(s.home, s.shards, s.flushers[f]);
    var s1 := Apply(s, Begin(f));
    StepKeepsInv(s, Begin(f));
    var rest;
    rest, t := FinishScan(s1, f);
    RunFirst(s, Begin(f), rest, t);
    steps := [Begin(f)] + rest;
    assert t.flushers == s.flushers;
    forall u ensures Get(t.persisted, u) == Get(s.persisted, u) + Counted(s.home, s.shards, u) {
      RunBalance(s, steps, t, u);
      GoodStepsOnlyMove(s, steps, t, f, u);
    }
  }
}
