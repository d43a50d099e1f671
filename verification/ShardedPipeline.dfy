/**
 The account-sharded front end: one single-worker pipeline per shard, events routed by debit
 account, results gathered under combined keys.
 */
module ShardedPipeline {
  import opened Bits
  import opened Disruptor
  import opened DisruptorSafety
  import opened DisruptorTheorems

  const MAX_SHARD_COUNT: nat := 8

  /** `route_to_shard`: a mask, so the shard count must be a power of two. */
  function Route(account: nat, shardCount: nat): nat
    requires shardCount > 0
  {
    And(account, shardCount - 1)
  }

  lemma RouteIsMod(account: nat, shardCount: nat)
    requires shardCount > 0 && IsPow2(shardCount)
    ensures Route(account, shardCount) == account % shardCount < shardCount
  {
    var k: nat :| shardCount == Pow2(k);
    MaskIsMod(account, k);
  }

  /** The largest power of two within half the CPUs (at least 1) and the shard limit. */
  method DefaultShardCount(cpus: nat) returns (n: nat)
    ensures IsPow2(n)
    ensures forall m: nat :: IsPow2(m) && m <= 8 && (m <= cpus / 2 || m == 1) ==> m <= n
    ensures n <= 8 && (n <= cpus / 2 || n == 1)
  {
    var desired := if cpus / 2 > 1 then cpus / 2 else 1;
    n := 1;
    ghost var k: nat := 0;
    while n * 2 <= Min(desired, MAX_SHARD_COUNT)
      invariant n == Pow2(k) && n <= Min(desired, MAX_SHARD_COUNT)
      decreases MAX_SHARD_COUNT - n
    {
      n := n * 2;
      k := k + 1;
    }
    forall m: nat | IsPow2(m) && m <= MAX_SHARD_COUNT && (m <= cpus / 2 || m == 1) ensures m <= n {
      var j: nat :| m == Pow2(j);
      if j > k {
        Pow2Grows(k + 1, j);
      } else {
        Pow2Grows(j, k);
      }
    }
  }

  lemma {:induction false} Pow2Grows(i: nat, j: nat)
    requires i <= j
    ensures Pow2(i) <= Pow2(j)
    decreases j
  {
    if i < j {
      Pow2Grows(i, j - 1);
    }
  }

  // ---- Combined results ----

  const SEQUENCE_BITS: nat := 48

  /** The shard shifted by `k` bits, or-ed with the sequence. */
  function KeyAt(k: nat, shard: nat, sequence: nat): nat {
    Or(Shl(shard, k), sequence)
  }

  /** `(shard_id << 48) | sequence`. */
  function Key(shard: nat, sequence: nat): nat {
    KeyAt(SEQUENCE_BITS, shard, sequence)
  }

  lemma KeyAtInjective(k: nat, s: nat, q: nat, s': nat, q': nat)
    requires q < Pow2(k) && q' < Pow2(k) && KeyAt(k, s, q) == KeyAt(k, s', q')
    ensures s == s' && q == q'
  {
    OrShl(s, q, k);
    OrShl(s', q', k);
    ShlUnique(s, q, s', q', k);
  }

  /** Below 2^48 a key is the shard's multiple of 2^48 plus the sequence. */
  lemma KeyIsSum(s: nat, q: nat)
    requires q < 0x1_0000_0000_0000
    ensures Key(s, q) == s * 0x1_0000_0000_0000 + q
  {
    Pow2Of48(SEQUENCE_BITS);
    OrShl(s, q, SEQUENCE_BITS);
    ShlIsProduct(s, SEQUENCE_BITS);
  }

  /** Below 2^48 a key determines its shard and sequence. */
  lemma KeyInjective(s: nat, q: nat, s': nat, q': nat)
    requires q < 0x1_0000_0000_0000 && q' < 0x1_0000_0000_0000 && Key(s, q) == Key(s', q')
    ensures s == s' && q == q'
  {
    Pow2Of48(SEQUENCE_BITS);
    KeyAtInjective(SEQUENCE_BITS, s, q, s', q');
  }

  /** The high part of a large sequence is or-ed into the shard. */
  lemma KeySplits(k: nat, s: nat, q: nat)
    ensures KeyAt(k, s, q) == KeyAt(k, Or(s, Shr(q, k)), Low(q, k))
  {
    ShrLow(q, k);
    OrShlShl(s, Shr(q, k), Low(q, k), k);
    OrShl(Or(s, Shr(q, k)), Low(q, k), k);
  }

  /** Another small sequence of an existing shard has the same key. */
  ghost predicate Collides(k: nat, s: nat, q: nat, shardCount: nat) {
    exists s': nat, q': nat ::
      s' < shardCount && q' < Pow2(k) && (s', q') != (s, q) && KeyAt(k, s, q) == KeyAt(k, s', q')
  }

  lemma CollidesIff(k: nat, s: nat, q: nat, shardCount: nat)
    ensures Collides(k, s, q, shardCount) <==> q >= Pow2(k) && Or(s, Shr(q, k)) < shardCount
  {
    var s0, q0 := Or(s, Shr(q, k)), Low(q, k);
    KeySplits(k, s, q);
    if Collides(k, s, q, shardCount) {
      var s': nat, q': nat :|
        s' < shardCount && q' < Pow2(k) && (s', q') != (s, q) && KeyAt(k, s, q) == KeyAt(k, s', q');
      KeyAtInjective(k, s0, q0, s', q');
      if q < Pow2(k) {
        KeyAtInjective(k, s, q, s', q');
      }
    }
    if q >= Pow2(k) && s0 < shardCount {
      assert (s0, q0) != (s, q);
    }
  }

  /** A shard result collides with a small sequence of an existing shard if and only if its own sequence
      is at least 2^48 and the or of its shard and the sequence's high part is an existing shard. */
  lemma KeyCollidesIff(s: nat, q: nat, shardCount: nat)
    ensures Collides(SEQUENCE_BITS, s, q, shardCount)
            <==> q >= 0x1_0000_0000_0000 && Or(s, q / 0x1_0000_0000_0000) < shardCount
  {
    Pow2Of48(SEQUENCE_BITS);
    ShrIsQuotient(q, SEQUENCE_BITS);
    CollidesIff(SEQUENCE_BITS, s, q, shardCount);
  }

  ghost predicate SmallSequences<R>(shards: seq<map<nat, R>>) {
    forall s, q :: 0 <= s < |shards| && q in shards[s] ==> q < 0x1_0000_0000_0000
  }

  function TotalSize<R>(shards: seq<map<nat, R>>): nat {
    if shards == [] then 0 else TotalSize(shards[..|shards| - 1]) + |shards[|shards| - 1]|
  }

  /** No two shard results have the same key. */
  ghost predicate Injective<R>(key: (nat, nat) -> nat, shards: seq<map<nat, R>>) {
    forall s: nat, q: nat, s': nat, q': nat ::
      s < |shards| && q in shards[s] && s' < |shards| && q' in shards[s'] && key(s, q) == key(s', q') ==> s == s' && q == q'
  }

  lemma AllKeysInjective<R>(shards: seq<map<nat, R>>)
    requires SmallSequences(shards)
    ensures Injective(Key, shards)
  {
    forall s: nat, q: nat, s': nat, q': nat
      | s < |shards| && q in shards[s] && s' < |shards| && q' in shards[s'] && Key(s, q) == Key(s', q')
      ensures s == s' && q == q'
    {
      KeyInjective(s, q, s', q');
    }
  }

  /** The results of the first `i` shards and, of shard `i`, those in `done`. */
  ghost predicate Due<R>(shards: seq<map<nat, R>>, i: nat, done: set<nat>, s: nat, q: nat) {
    s < |shards| && q in shards[s] && (s < i || (s == i && q in done))
  }

  /** `combined` holds exactly the results that are due; `origin` says where each entry came from. */
  ghost predicate Gathered<R>(key: (nat, nat) -> nat, combined: map<nat, R>, origin: map<nat, (nat, nat)>,
                              shards: seq<map<nat, R>>, i: nat, done: set<nat>)
  {
    && combined.Keys == origin.Keys
    && (forall c :: c in origin ==>
          && Due(shards, i, done, origin[c].0, origin[c].1) && c == key(origin[c].0, origin[c].1)
          && combined[c] == shards[origin[c].0][origin[c].1])
    && (forall s, q :: Due(shards, i, done, s, q) ==> key(s, q) in combined)
  }

  lemma GatherOne<R>(key: (nat, nat) -> nat, combined: map<nat, R>, origin: map<nat, (nat, nat)>,
                     shards: seq<map<nat, R>>, i: nat, done: set<nat>, q: nat)
    requires Injective(key, shards) && Gathered(key, combined, origin, shards, i, done)
    requires i < |shards| && q in shards[i] && q !in done
    ensures key(i, q) !in combined
    ensures Gathered(key, combined[key(i, q) := shards[i][q]], origin[key(i, q) := (i, q)], shards, i, done + {q})
  {
    var c', o' := combined[key(i, q) := shards[i][q]], origin[key(i, q) := (i, q)];
    forall s, p | Due(shards, i, done + {q}, s, p) ensures key(s, p) in c' {
      if !(s == i && p == q) {
        assert Due(shards, i, done, s, p);
      }
    }
    forall c | c in o' ensures Due(shards, i, done + {q}, o'[c].0, o'[c].1) {
      if c != key(i, q) {
        assert Due(shards, i, done, o'[c].0, o'[c].1);
      }
    }
  }

  lemma GatherEnd<R>(key: (nat, nat) -> nat, combined: map<nat, R>, origin: map<nat, (nat, nat)>,
                     shards: seq<map<nat, R>>, i: nat)
    requires i < |shards| && Gathered(key, combined, origin, shards, i, shards[i].Keys)
    ensures Gathered(key, combined, origin, shards, i + 1, {})
  {
    forall s, q | Due(shards, i + 1, {}, s, q) ensures key(s, q) in combined {
      assert Due(shards, i, shards[i].Keys, s, q);
    }
  }

  method GatherShard<R>(before: map<nat, R>, ghost origin: map<nat, (nat, nat)>, shards: seq<map<nat, R>>, i: nat)
    returns (combined: map<nat, R>, ghost origin': map<nat, (nat, nat)>)
    requires i < |shards| && (Injective(Key, shards) ==> Gathered(Key, before, origin, shards, i, {}))
    ensures Injective(Key, shards) ==>
              Gathered(Key, combined, origin', shards, i + 1, {}) && |combined| == |before| + |shards[i]|
  {
    combined, origin' := before, origin;
    var rest := shards[i].Keys;
    ghost var done: set<nat> := {};
    while rest != {}
      invariant done + rest == shards[i].Keys && done !! rest
      invariant Injective(Key, shards) ==> Gathered(Key, combined, origin', shards, i, done) && |combined| == |before| + |done|
      decreases rest
    {
      var q :| q in rest;
      if Injective(Key, shards) {
        GatherOne(Key, combined, origin', shards, i, done, q);
      }
      combined := combined[Key(i, q) := shards[i][q]];
      origin' := origin'[Key(i, q) := (i, q)];
      rest, done := rest - {q}, done + {q};
    }
    assert done == shards[i].Keys;
    if Injective(Key, shards) {
      GatherEnd(Key, combined, origin', shards, i);
    }
  }

  lemma GatheredAll<R>(key: (nat, nat) -> nat, combined: map<nat, R>, origin: map<nat, (nat, nat)>, shards: seq<map<nat, R>>)
    requires Injective(key, shards) && Gathered(key, combined, origin, shards, |shards|, {})
    ensures forall s: nat, q: nat :: s < |shards| && q in shards[s] ==>
              key(s, q) in combined && combined[key(s, q)] == shards[s][q]
    ensures forall c :: c in combined ==> exists s: nat, q: nat :: s < |shards| && q in shards[s] && c == key(s, q)
  {
    forall s: nat, q: nat | s < |shards| && q in shards[s]
      ensures key(s, q) in combined && combined[key(s, q)] == shards[s][q]
    {
      assert Due(shards, |shards|, {}, s, q);
    }
  }

  /** One entry per shard result, under its own key. */
  method Results<R>(shards: seq<map<nat, R>>) returns (combined: map<nat, R>)
    ensures SmallSequences(shards) ==>
              forall s: nat, q: nat :: s < |shards| && q in shards[s] ==>
                Key(s, q) in combined && combined[Key(s, q)] == shards[s][q]
    ensures SmallSequences(shards) ==>
              forall c :: c in combined ==> exists s: nat, q: nat :: s < |shards| && q in shards[s] && c == Key(s, q)
    ensures SmallSequences(shards) ==> |combined| == TotalSize(shards)
  {
    combined := map[];
    ghost var origin: map<nat, (nat, nat)> := map[];
    if SmallSequences(shards) {
      AllKeysInjective(shards);
    }
    for i := 0 to |shards|
      invariant Injective(Key, shards) ==> Gathered(Key, combined, origin, shards, i, {}) && |combined| == TotalSize(shards[..i])
    {
      combined, origin := GatherShard(combined, origin, shards, i);
      assert shards[..i + 1][..i] == shards[..i];
    }
    assert shards[..|shards|] == shards;
    if SmallSequences(shards) {
      GatheredAll(Key, combined, origin, shards);
    }
  }

  // ---- Per-account order across the shards ----

  /** `accepted` is every claimed event, whatever its shard, in claim order. */
  datatype Sharded = Sharded(shards: seq<State>, accepted: seq<Event>)

  /** Shard `i` takes a step; the front end only begins events that route to it. */
  predicate StepOk(s: Sharded, i: nat, step: Step) {
    && i < |s.shards| && Enabled(s.shards[i], step)
    && (step.Begin? ==> Route(step.event.debitAccount, |s.shards|) == i)
  }

  function StepShard(s: Sharded, i: nat, step: Step): Sharded
    requires StepOk(s, i, step)
  {
    Sharded(s.shards[i := Apply(s.shards[i], step)],
            if step.Claim? then s.accepted + [s.shards[i].producer.event] else s.accepted)
  }

  datatype Move = Move(shard: nat, step: Step)

  ghost predicate ShardedRun(s: Sharded, moves: seq<Move>, t: Sharded)
    decreases |moves|
  {
    if moves == [] then s == t
    else StepOk(s, moves[0].shard, moves[0].step)
         && ShardedRun(StepShard(s, moves[0].shard, moves[0].step), moves[1..], t)
  }

  function InitSharded(slots: seq<Event>, shardCount: nat): Sharded {
    Sharded(seq(shardCount, _ => Init(slots, 1)), [])
  }

  /** The events routed to shard `i`. */
  function OfShard(es: seq<Event>, i: nat, m: nat): seq<Event>
    requires m > 0
  {
    if es == [] then [] else
      var e, rest := es[|es| - 1], OfShard(es[..|es| - 1], i, m);
      if Route(e.debitAccount, m) == i then rest + [e] else rest
  }

  /** The events debiting account `a`. */
  function OfAccount(es: seq<Event>, a: nat): seq<Event> {
    if es == [] then [] else
      var e, rest := es[|es| - 1], OfAccount(es[..|es| - 1], a);
      if e.debitAccount == a then rest + [e] else rest
  }

  ghost predicate ShardInv(s: Sharded, i: nat)
    requires i < |s.shards|
  {
    var d := s.shards[i];
    && Inv(d) && |d.workers| == 1
    && (d.producer.Scanning? || d.producer.Ready? || d.producer.Claimed? ==>
          Route(d.producer.event.debitAccount, |s.shards|) == i)
    && d.log == OfShard(s.accepted, i, |s.shards|)
  }

  ghost predicate ShardedInv(s: Sharded) {
    |s.shards| > 0 && forall i :: 0 <= i < |s.shards| ==> ShardInv(s, i)
  }

  lemma StepKeepsShardedInv(s: Sharded, i: nat, step: Step)
    requires ShardedInv(s) && StepOk(s, i, step)
    ensures ShardedInv(StepShard(s, i, step))
  {
    var t := StepShard(s, i, step);
    assert ShardInv(s, i);
    StepKeepsInv(s.shards[i], step);
    forall j | 0 <= j < |t.shards| ensures ShardInv(t, j) {
      assert ShardInv(s, j);
      if step.Claim? {
        assert t.accepted[..|t.accepted| - 1] == s.accepted;
      }
    }
  }

  lemma {:induction false} RunKeepsShardedInv(s: Sharded, moves: seq<Move>, t: Sharded)
    requires ShardedInv(s) && ShardedRun(s, moves, t)
    ensures ShardedInv(t) && |t.shards| == |s.shards|
    decreases |moves|
  {
    if moves != [] {
      StepKeepsShardedInv(s, moves[0].shard, moves[0].step);
      RunKeepsShardedInv(StepShard(s, moves[0].shard, moves[0].step), moves[1..], t);
    }
  }

  lemma {:induction false} ShardKeepsAccount(es: seq<Event>, a: nat, m: nat)
    requires m > 0
    ensures OfAccount(OfShard(es, Route(a, m), m), a) == OfAccount(es, a)
    decreases |es|
  {
    if es != [] {
      var front, e := es[..|es| - 1], es[|es| - 1];
      ShardKeepsAccount(front, a, m);
      var f := OfShard(front, Route(a, m), m);
      if Route(e.debitAccount, m) == Route(a, m) {
        assert (f + [e])[..|f|] == f;
      }
    }
  }

  lemma {:induction false} OtherShardsLackAccount(es: seq<Event>, a: nat, i: nat, m: nat)
    requires m > 0 && i != Route(a, m)
    ensures forall e :: e in OfShard(es, i, m) ==> e.debitAccount != a
    decreases |es|
  {
    if es != [] {
      OtherShardsLackAccount(es[..|es| - 1], a, i, m);
    }
  }

  /** The events of an account are exactly those at the positions that debit it, in order. */
  lemma {:induction false} OfAccountPositions(es: seq<Event>, a: nat) returns (ps: seq<nat>)
    ensures |ps| == |OfAccount(es, a)| && forall k :: 0 <= k < |ps| ==> ps[k] < |es| && OfAccount(es, a)[k] == es[ps[k]]
    ensures forall j, k :: 0 <= j < k < |ps| ==> ps[j] < ps[k]
    ensures forall i: nat :: i in ps <==> i < |es| && es[i].debitAccount == a
    decreases |es|
  {
    if es == [] {
      ps := [];
    } else {
      var front, n := es[..|es| - 1], |es| - 1;
      ps := OfAccountPositions(front, a);
      assert forall i: nat :: i in ps <==> i < n && es[i].debitAccount == a;
      if es[n].debitAccount == a {
        ps := ps + [n];
      }
    }
  }

  lemma {:induction false} OfAccountPrefix(es: seq<Event>, k: nat, a: nat)
    requires k <= |es|
    ensures OfAccount(es[..k], a) <= OfAccount(es, a)
    decreases |es|
  {
    if k < |es| {
      OfAccountPrefix(es[..|es| - 1], k, a);
      assert es[..|es| - 1][..k] == es[..k];
    } else {
      assert es[..k] == es;
    }
  }

  /** In every interleaving, the events of one debit account are handled on one shard only, in the
      order they were accepted, none skipped. */
  lemma AccountHandledInOrder(slots: seq<Event>, shardCount: nat, moves: seq<Move>, t: Sharded, a: nat, i: nat)
    requires |slots| > 0 && shardCount > 0 && IsPow2(shardCount)
    requires ShardedRun(InitSharded(slots, shardCount), moves, t) && i < |t.shards|
    ensures |t.shards[i].workers| == 1
    ensures i == a % shardCount ==> OfAccount(Events(t.shards[i].workers[0].handled), a) <= OfAccount(t.accepted, a)
    ensures i != a % shardCount ==> forall e :: e in Events(t.shards[i].workers[0].handled) ==> e.debitAccount != a
  {
    var s := InitSharded(slots, shardCount);
    forall j | 0 <= j < |s.shards| ensures ShardInv(s, j) {
      InitInv(slots, 1);
    }
    RunKeepsShardedInv(s, moves, t);
    RouteIsMod(a, shardCount);
    assert ShardInv(t, i);
    var d := t.shards[i];
    PrefixFromInv(d);
    var k := |d.workers[0].handled|;
    if i == a % shardCount {
      ShardKeepsAccount(t.accepted, a, shardCount);
      OfAccountPrefix(d.log, k, a);
    } else {
      OtherShardsLackAccount(t.accepted, a, i, shardCount);
    }
  }
}
